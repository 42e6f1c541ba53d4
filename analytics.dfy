/**
 * The open-jobs analytics of reporting_tab.py, lifted out of the report
 * widgets: which jobs are open, their numeric amounts, their age in days
 * and age bucket, the "stuck" and "high-value aging" selections, and the
 * totals the report shows overall, per coordinator and per age bucket.
 */
module Analytics {
  import opened Wrappers
  import opened PyStrings
  import opened Cells
  import opened Config
  import opened Reconciliation

  const ExcludedStatuses: seq<string> := ["Closed", "Cancelled/Postponed", ReviewMissingStatus]
  const EarlyStatuses: seq<string> := ["New", "Waiting Measure", "Ready to order"]
  const StuckThresholdDays: int := 21
  const AgingThresholdDays: int := 56
  const ValueThreshold: real := 10000.0
  const SecondsPerDay: int := 86400

  /** `series.isin(values)` for one cell: only text equal to one of the strings matches. */
  predicate StatusIn(c: Cell, values: seq<string>) {
    c.Text? && c.s in values
  }

  /** A job is open unless its status is closed, cancelled/postponed or under review as missing. */
  predicate IsOpen(r: Row)
    requires |r| == ColumnCount
  {
    !StatusIn(r[StatusIndex], ExcludedStatuses)
  }

  /** The open jobs, in their original order. */
  function OpenRows(jobs: seq<Row>): (r: seq<Row>)
    requires IsTable(jobs)
    ensures IsTable(r) && |r| <= |jobs|
    ensures forall i :: 0 <= i < |r| ==> IsOpen(r[i]) && r[i] in jobs
    ensures forall i :: 0 <= i < |jobs| && IsOpen(jobs[i]) ==> jobs[i] in r
  {
    if jobs == [] then []
    else
      var rest := OpenRows(jobs[1..]);
      assert forall i :: 1 <= i < |jobs| ==> jobs[i] == jobs[1..][i - 1];
      if IsOpen(jobs[0]) then [jobs[0]] + rest else rest
  }

  /** Filtering distributes over concatenation, so the open jobs keep their relative order. */
  lemma {:induction false} OpenRowsAppend(a: seq<Row>, b: seq<Row>)
    requires IsTable(a) && IsTable(b)
    ensures IsTable(a + b)
    ensures OpenRows(a + b) == OpenRows(a) + OpenRows(b)
  {
    if a == [] {
      assert a + b == b;
    } else {
      assert (a + b)[0] == a[0];
      assert (a + b)[1..] == a[1..] + b;
      OpenRowsAppend(a[1..], b);
    }
  }

  /** Each open row is kept as often as it occurs, and no other row is kept. */
  lemma {:induction false} OpenRowsCount(jobs: seq<Row>)
    requires IsTable(jobs)
    ensures forall x :: multiset(OpenRows(jobs))[x] == if |x| == ColumnCount && IsOpen(x) then multiset(jobs)[x] else 0
  {
    if jobs != [] {
      OpenRowsCount(jobs[1..]);
      assert jobs == [jobs[0]] + jobs[1..];
    }
  }

  // ---------------------------------------------------------------------
  // Amounts

  /** `astype(str)` with every `$` and `,` removed. */
  function CurrencyText(c: Cell): string {
    ReplaceChar(ReplaceChar(PyStr(c), '$', ""), ',', "")
  }

  /** The numeric value of a currency cell; anything that does not read as a number counts as zero. */
  function CoerceCurrency(c: Cell): real {
    match ParseNumber(CurrencyText(c))
    case Some(v) => v
    case None => 0.0
  }

  lemma IntTextPlain(i: int)
    ensures '$' !in IntText(i) && ',' !in IntText(i)
  {
    if i < 0 {
      assert IntText(i) == "-" + NatText(-i);
    }
  }

  /** An integer amount keeps its value. */
  lemma CurrencyOfInt(i: int)
    ensures CoerceCurrency(Int(i)) == i as real
  {
    IntTextPlain(i);
    ReplaceCharRemoves(IntText(i), '$', "");
    ReplaceCharRemoves(IntText(i), ',', "");
    IntTextParses(i);
  }

  /** A float amount with at most one decimal place keeps its value. */
  lemma CurrencyOfReal(n: nat, d: nat)
    requires d < 10
    ensures CoerceCurrency(Real(n as real + d as real / 10.0)) == n as real + d as real / 10.0
  {
    var x := n as real + d as real / 10.0;
    var t := NatText(n) + "." + [DigitChar(d)];
    FloatTextOfTenths(x, n, d);
    assert forall i :: 0 <= i < |t| ==> IsDigit(t[i]) || t[i] == '.';
    assert '$' !in t && ',' !in t;
    ReplaceCharRemoves(t, '$', "");
    ReplaceCharRemoves(t, ',', "");
    assert CurrencyText(Real(x)) == t;
    TenthsParse(n, d);
  }

  /** `str` of a float with at most one decimal place: its whole part, a dot and one digit. */
  lemma FloatTextOfTenths(x: real, n: nat, d: nat)
    requires d < 10 && x == n as real + d as real / 10.0
    ensures FloatText(x) == NatText(n) + "." + [DigitChar(d)]
  {
    WholeAndTenths(x, n, d);
    TenthDigit(x - n as real, d);
    UnsignedFloatTextParts(x, n, [DigitChar(d)]);
  }

  lemma UnsignedFloatTextParts(x: real, whole: nat, digits: string)
    requires x >= 0.0 && x.Floor == whole
    requires (if x - whole as real == 0.0 then "0" else FractionDigits(x - whole as real, FloatFractionDigits)) == digits
    ensures FloatText(x) == NatText(whole) + "." + digits
  {
  }

  lemma WholeAndTenths(x: real, n: nat, d: nat)
    requires d < 10 && x == n as real + d as real / 10.0
    ensures x >= 0.0 && x.Floor == n
  {
    assert n as real <= x < n as real + 1.0;
  }

  /** The fraction digits of d tenths: "0" stands for no fraction, otherwise the one digit. */
  lemma TenthDigit(frac: real, d: nat)
    requires d < 10 && frac == d as real / 10.0
    ensures (if frac == 0.0 then "0" else FractionDigits(frac, FloatFractionDigits)) == [DigitChar(d)]
  {
    assert frac == 0.0 <==> d == 0;
    if d != 0 {
      assert frac * 10.0 == d as real;
      assert (frac * 10.0).Floor == d;
      assert FractionDigits(frac, FloatFractionDigits) == [DigitChar(d)] + FractionDigits(0.0, FloatFractionDigits - 1);
    }
  }

  /** That text reads back as the number. */
  lemma TenthsParse(n: nat, d: nat)
    requires d < 10
    ensures ParseNumber(NatText(n) + "." + [DigitChar(d)]) == Some(n as real + d as real / 10.0)
  {
    var a := NatText(n);
    var t := a + "." + [DigitChar(d)];
    assert t == a + ("." + [DigitChar(d)]);
    DigitRunOfPrefix(a, "." + [DigitChar(d)]);
    assert t[..|a|] == a && t[|a|] == '.' && t[|a| + 1..] == [DigitChar(d)];
    NatTextValue(n);
    assert FractionValue([DigitChar(d)]) == d as real / 10.0 by {
      assert [DigitChar(d)][1..] == [];
    }
    assert t[0] == a[0] && IsDigit(t[0]);
  }

  /** A missing amount counts as zero. */
  lemma CurrencyOfNull()
    ensures CoerceCurrency(Null) == 0.0
  {
    assert CurrencyText(Null) == "nan";
  }

  lemma DropSymbol(a: string, b: string, c: char)
    ensures ReplaceChar(a + [c] + b, c, "") == ReplaceChar(a + b, c, "")
  {
    ReplaceCharConcat(a + [c], b, c, "");
    ReplaceCharConcat(a, [c], c, "");
    ReplaceCharConcat(a, b, c, "");
    assert ReplaceChar([c], c, "") == "" + ReplaceChar([], c, "");
    assert ReplaceChar(a, c, "") + "" == ReplaceChar(a, c, "");
  }

  /** A `$` anywhere in an amount is ignored: removing it does not change the value. */
  lemma CurrencyIgnoresDollar(a: string, b: string)
    ensures CoerceCurrency(Text(a + "$" + b)) == CoerceCurrency(Text(a + b))
  {
    DropSymbol(a, b, '$');
  }

  /** A `,` anywhere in an amount is ignored: removing it does not change the value. */
  lemma CurrencyIgnoresSeparator(a: string, b: string)
    ensures CoerceCurrency(Text(a + "," + b)) == CoerceCurrency(Text(a + b))
  {
    var a', b' := ReplaceChar(a, '$', ""), ReplaceChar(b, '$', "");
    ReplaceCharConcat(a + ",", b, '$', "");
    ReplaceCharConcat(a, ",", '$', "");
    ReplaceCharConcat(a, b, '$', "");
    assert ReplaceChar(",", '$', "") == "," + ReplaceChar([], '$', "");
    assert ReplaceChar(a + "," + b, '$', "") == a' + "," + b';
    assert ReplaceChar(a + b, '$', "") == a' + b';
    DropSymbol(a', b', ',');
  }

  /** Currency symbols and thousands separators are ignored. */
  lemma CurrencyWithSeparator()
    ensures CoerceCurrency(Text("$1,250")) == 1250.0
  {
    assert CurrencyText(Text("$1,250")) == "1250" by {
      DollarDropped();
      SeparatorDropped();
    }
    TwelveFiftyParses();
  }

  lemma DollarDropped()
    ensures ReplaceChar("$1,250", '$', "") == "1,250"
  {
    assert "$1,250" == "$" + "1,250";
    ReplaceCharConcat("$", "1,250", '$', "");
    ReplaceCharSingle('$', "");
    assert '$' !in "1,250";
    ReplaceCharRemoves("1,250", '$', "");
  }

  lemma SeparatorDropped()
    ensures ReplaceChar("1,250", ',', "") == "1250"
  {
    assert "1,250"[1..] == ",250" && ",250"[1..] == "250";
  }

  lemma TwelveFiftyParses()
    ensures ParseNumber("1250") == Some(1250.0)
  {
    assert DigitRun("1250") == 4;
    assert "1250"[..4] == "1250";
    assert DigitsValue("1") == 1;
    assert DigitsValue("12") == 12 by { assert "12"[..1] == "1"; }
    assert DigitsValue("125") == 125 by { assert "125"[..2] == "12"; }
    assert DigitsValue("1250") == 1250 by { assert "1250"[..3] == "125"; }
  }

  /** Cents are kept. */
  lemma CurrencyWithCents()
    ensures CoerceCurrency(Text("7.50")) == 7.5
  {
    NoSymbolsKept();
    SevenFiftyParses();
  }

  lemma NoSymbolsKept()
    ensures ReplaceChar(ReplaceChar("7.50", '$', ""), ',', "") == "7.50"
  {
    assert '$' !in "7.50" && ',' !in "7.50";
  }

  lemma SevenFiftyParses()
    ensures ParseNumber("7.50") == Some(7.5)
  {
    assert DigitRun("7.50") == 1;
    assert "7.50"[..1] == "7" && "7.50"[2..] == "50";
    assert FractionValue("50") == 0.5 by { assert "50"[1..] == "0"; }
  }

  /** A leading minus sign is kept in front of a currency symbol. */
  lemma CurrencyNegative()
    ensures CoerceCurrency(Text("-$75")) == -75.0
  {
    NegativeDollarDropped();
    SeventyFiveParses();
  }

  lemma NegativeDollarDropped()
    ensures CurrencyText(Text("-$75")) == "-75"
  {
    assert ReplaceChar("-$75", '$', "") == "-75";
    assert ReplaceChar("-75", ',', "") == "-75";
  }

  lemma SeventyFiveParses()
    ensures ParseNumber("-75") == Some(-75.0)
  {
    var t := "75";
    assert "-75"[1..] == t;
    assert DigitRun(t) == 2;
    assert t[..2] == t;
    assert DigitsValue("75") == 75 by { assert "75"[..1] == "7"; }
  }

  /** Text that is not a number counts as zero. */
  lemma CurrencyUnreadable()
    ensures CoerceCurrency(Text("N/A")) == 0.0
  {
    UnreadableKept();
    UnreadableParse();
  }

  lemma UnreadableKept()
    ensures CurrencyText(Text("N/A")) == "N/A"
  {
    assert '$' !in "N/A" && ',' !in "N/A";
  }

  lemma UnreadableParse()
    ensures ParseNumber("N/A") == None
  {
    assert DigitRun("N/A") == 0;
  }

  // ---------------------------------------------------------------------
  // Age and age buckets

  /** Whole days from the turn-in date to `today` (a Timedelta's `.days`), none without a turn-in date. */
  function JobAge(turnIn: Cell, today: Timestamp): Option<int> {
    if turnIn.Date? then Some((today.instant - turnIn.t.instant) / SecondsPerDay) else None
  }

  /** The age is the number of whole days elapsed, rounded down (also for turn-in dates in the future). */
  lemma JobAgeIsWholeDays(turnIn: Cell, today: Timestamp)
    ensures JobAge(turnIn, today).None? <==> !turnIn.Date?
    ensures var age := JobAge(turnIn, today);
      age.Some? ==>
        age.value * SecondsPerDay <= today.instant - turnIn.t.instant < (age.value + 1) * SecondsPerDay
  {
  }

  datatype Bucket = FirstWeek | TwoToThreeWeeks | FourToSevenWeeks | EighthWeek | OverEightWeeks

  /** The buckets in category order. */
  const Buckets: seq<Bucket> := [FirstWeek, TwoToThreeWeeks, FourToSevenWeeks, EighthWeek, OverEightWeeks]

  /** The right-closed bin edges; the last bin is open above. */
  const BinEdges: seq<int> := [-1, 7, 21, 49, 56]

  function BucketLabel(b: Bucket): string {
    match b
    case FirstWeek => "Job Age: 0-7 Days (First Week of Job Age)"
    case TwoToThreeWeeks => "Job Age: 8-21 Days (Job is 2-3 Weeks Old)"
    case FourToSevenWeeks => "Job Age: 22-49 Days (Job is 4-7 Weeks Old)"
    case EighthWeek => "Job Age: 50-56 Days (Job is 8 Weeks Old)"
    case OverEightWeeks => "Job Age: Over 56 Days (Job is Older than 8 Weeks)"
  }

  function BucketOf(age: int): Option<Bucket> {
    if age <= -1 then None
    else if age <= 7 then Some(FirstWeek)
    else if age <= 21 then Some(TwoToThreeWeeks)
    else if age <= 49 then Some(FourToSevenWeeks)
    else if age <= 56 then Some(EighthWeek)
    else Some(OverEightWeeks)
  }

  /**
   * The bucketing is `pd.cut` with right-closed bins over BinEdges: an age
   * is in bucket k exactly when it lies in (edge k, edge k+1], the last bin
   * being unbounded; ages at or below the first edge are in no bucket.
   */
  lemma BucketsAreRightClosedBins(age: int, k: nat)
    requires k < |Buckets|
    ensures BucketOf(age) == Some(Buckets[k]) <==>
      BinEdges[k] < age && (k + 1 == |BinEdges| || age <= BinEdges[k + 1])
    ensures BucketOf(age).None? <==> age <= BinEdges[0]
  {
  }

  lemma BucketBoundaries()
    ensures BucketOf(0) == Some(FirstWeek) && BucketOf(7) == Some(FirstWeek)
    ensures BucketOf(8) == Some(TwoToThreeWeeks) && BucketOf(21) == Some(TwoToThreeWeeks)
    ensures BucketOf(22) == Some(FourToSevenWeeks) && BucketOf(49) == Some(FourToSevenWeeks)
    ensures BucketOf(50) == Some(EighthWeek) && BucketOf(56) == Some(EighthWeek)
    ensures BucketOf(57) == Some(OverEightWeeks) && BucketOf(-1) == None
  {
  }

  // ---------------------------------------------------------------------
  // The prepared open-jobs table

  /** An open job with the columns the report derives for it. */
  datatype OpenJob = OpenJob(
    row: Row,
    key: Cell,
    status: Cell,
    coordinator: Cell,
    invoiceTotal: real,
    balance: real,
    age: Option<int>,
    bucket: Option<Bucket>)

  function BucketOfAge(age: Option<int>): Option<Bucket> {
    match age
    case Some(a) => BucketOf(a)
    case None => None
  }

  /** The derived columns of one open job: numeric amounts, age in days and age bucket. */
  function Annotate(r: Row, today: Timestamp): OpenJob
    requires |r| == ColumnCount
  {
    var age := JobAge(r[TurnInDateIndex], today);
    OpenJob(r, r[KeyIndex], r[StatusIndex], r[CoordinatorIndex],
            CoerceCurrency(r[InvoiceTotalIndex]), CoerceCurrency(r[BalanceIndex]),
            age, BucketOfAge(age))
  }

  /** The derived bucket agrees with the derived age. */
  predicate Consistent(j: OpenJob) {
    j.bucket == BucketOfAge(j.age)
  }

  /** The derived columns of each job, in order. */
  function AnnotateRows(rows: seq<Row>, today: Timestamp): (r: seq<OpenJob>)
    requires IsTable(rows)
    ensures |r| == |rows|
  {
    if rows == [] then [] else [Annotate(rows[0], today)] + AnnotateRows(rows[1..], today)
  }

  /** The i-th prepared job is the i-th row with its derived columns. */
  lemma {:induction false} AnnotateRowsInOrder(rows: seq<Row>, today: Timestamp)
    requires IsTable(rows)
    ensures forall i :: 0 <= i < |rows| ==> AnnotateRows(rows, today)[i] == Annotate(rows[i], today)
  {
    if rows != [] {
      AnnotateRowsInOrder(rows[1..], today);
      forall i | 1 <= i < |rows| ensures rows[i] == rows[1..][i - 1] { }
    }
  }

  /** The prepared table, or None when there are no jobs at all. */
  function OpenJobs(jobs: seq<Row>, today: Timestamp): Option<seq<OpenJob>>
    requires IsTable(jobs)
  {
    if jobs == [] then None else Some(AnnotateRows(OpenRows(jobs), today))
  }

  /** The open-status filter, row by row. */
  method FilterOpen(jobs: seq<Row>) returns (open: seq<Row>)
    requires IsTable(jobs)
    ensures open == OpenRows(jobs)
  {
    open := [];
    var i := |jobs|;
    while i > 0
      invariant 0 <= i <= |jobs|
      invariant open == OpenRows(jobs[i..])
    {
      i := i - 1;
      assert jobs[i..][1..] == jobs[i + 1..];
      if IsOpen(jobs[i]) {
        open := [jobs[i]] + open;
      }
    }
    assert jobs[0..] == jobs;
  }

  /** Adds the numeric, age and bucket columns to each open job. */
  method AnnotateAll(open: seq<Row>, today: Timestamp) returns (prepared: seq<OpenJob>)
    requires IsTable(open)
    ensures prepared == AnnotateRows(open, today)
  {
    prepared := [];
    var i := |open|;
    while i > 0
      invariant 0 <= i <= |open|
      invariant prepared == AnnotateRows(open[i..], today)
    {
      i := i - 1;
      assert open[i..][1..] == open[i + 1..];
      var r := open[i];
      var invoiceTotal := CoerceCurrency(r[InvoiceTotalIndex]);
      var balance := CoerceCurrency(r[BalanceIndex]);
      var age := JobAge(r[TurnInDateIndex], today);
      prepared := [OpenJob(r, r[KeyIndex], r[StatusIndex], r[CoordinatorIndex], invoiceTotal, balance, age, BucketOfAge(age))] + prepared;
    }
    assert open[0..] == open;
  }

  /** Filters the open jobs, then adds the numeric, age and bucket columns job by job. */
  method PrepareOpenJobs(jobs: seq<Row>, today: Timestamp) returns (result: Option<seq<OpenJob>>)
    requires IsTable(jobs)
    ensures result == OpenJobs(jobs, today)
  {
    if |jobs| == 0 {
      return None;
    }
    var open := FilterOpen(jobs);
    var prepared := AnnotateAll(open, today);
    result := Some(prepared);
  }

  lemma {:induction false} AnnotateRowsMembers(rows: seq<Row>, today: Timestamp)
    requires IsTable(rows)
    ensures forall j :: j in AnnotateRows(rows, today) ==> Consistent(j) && |j.row| == ColumnCount && j.row in rows
    ensures forall i :: 0 <= i < |rows| ==> Annotate(rows[i], today) in AnnotateRows(rows, today)
  {
    if rows != [] {
      AnnotateRowsMembers(rows[1..], today);
      forall i | 1 <= i < |rows| ensures rows[i] == rows[1..][i - 1] { }
    }
  }

  /** Every prepared job is open, and every open job is prepared with consistent derived columns. */
  lemma OpenJobsExact(jobs: seq<Row>, today: Timestamp)
    requires IsTable(jobs) && jobs != []
    ensures var js := OpenJobs(jobs, today).value;
      && (forall j :: j in js ==> Consistent(j) && |j.row| == ColumnCount && IsOpen(j.row) && j.row in jobs)
      && (forall i :: 0 <= i < |jobs| && IsOpen(jobs[i]) ==> Annotate(jobs[i], today) in js)
  {
    var open := OpenRows(jobs);
    AnnotateRowsMembers(open, today);
    forall i | 0 <= i < |jobs| && IsOpen(jobs[i]) ensures Annotate(jobs[i], today) in AnnotateRows(open, today) {
      var m :| 0 <= m < |open| && open[m] == jobs[i];
    }
  }

  // ---------------------------------------------------------------------
  // Stuck and high-value aging jobs

  /** Still in an early status more than three weeks after turn-in. */
  predicate IsStuck(j: OpenJob) {
    StatusIn(j.status, EarlyStatuses) && j.age.Some? && j.age.value > StuckThresholdDays
  }

  /** Older than eight weeks with more than 10,000 still owed. */
  predicate IsHighValueAging(j: OpenJob) {
    j.age.Some? && j.age.value > AgingThresholdDays && j.balance > ValueThreshold
  }

  /** Stuck jobs are the early-status jobs of the three oldest buckets. */
  lemma StuckMeansPastThreeWeeks(j: OpenJob)
    requires Consistent(j)
    ensures IsStuck(j) <==>
      StatusIn(j.status, EarlyStatuses) && j.bucket in {Some(FourToSevenWeeks), Some(EighthWeek), Some(OverEightWeeks)}
  {
  }

  /** High-value aging jobs are the oldest bucket's jobs with a balance over the threshold. */
  lemma HighValueMeansOldestBucket(j: OpenJob)
    requires Consistent(j)
    ensures IsHighValueAging(j) <==> j.bucket == Some(OverEightWeeks) && j.balance > ValueThreshold
  {
  }

  function StuckJobs(js: seq<OpenJob>): (r: seq<OpenJob>)
    ensures forall j :: j in r <==> j in js && IsStuck(j)
  {
    if js == [] then []
    else
      assert js == [js[0]] + js[1..];
      (if IsStuck(js[0]) then [js[0]] else []) + StuckJobs(js[1..])
  }

  function HighValueAgingJobs(js: seq<OpenJob>): (r: seq<OpenJob>)
    ensures forall j :: j in r <==> j in js && IsHighValueAging(j)
  {
    if js == [] then []
    else
      assert js == [js[0]] + js[1..];
      (if IsHighValueAging(js[0]) then [js[0]] else []) + HighValueAgingJobs(js[1..])
  }

  /** The stuck jobs keep their order: the selection distributes over concatenation. */
  lemma {:induction false} StuckJobsAppend(a: seq<OpenJob>, b: seq<OpenJob>)
    ensures StuckJobs(a + b) == StuckJobs(a) + StuckJobs(b)
  {
    if a == [] {
      assert a + b == b;
    } else {
      assert (a + b)[0] == a[0];
      assert (a + b)[1..] == a[1..] + b;
      StuckJobsAppend(a[1..], b);
    }
  }

  /** Each stuck job is listed as often as it occurs, so `len` counts the stuck jobs. */
  lemma {:induction false} StuckJobsCount(js: seq<OpenJob>)
    ensures forall x :: multiset(StuckJobs(js))[x] == if IsStuck(x) then multiset(js)[x] else 0
  {
    if js != [] {
      StuckJobsCount(js[1..]);
      assert js == [js[0]] + js[1..];
    }
  }

  /** The high-value aging jobs keep their order. */
  lemma {:induction false} HighValueAgingJobsAppend(a: seq<OpenJob>, b: seq<OpenJob>)
    ensures HighValueAgingJobs(a + b) == HighValueAgingJobs(a) + HighValueAgingJobs(b)
  {
    if a == [] {
      assert a + b == b;
    } else {
      assert (a + b)[0] == a[0];
      assert (a + b)[1..] == a[1..] + b;
      HighValueAgingJobsAppend(a[1..], b);
    }
  }

  /** Each high-value aging job is listed as often as it occurs. */
  lemma {:induction false} HighValueAgingJobsCount(js: seq<OpenJob>)
    ensures forall x :: multiset(HighValueAgingJobs(js))[x] == if IsHighValueAging(x) then multiset(js)[x] else 0
  {
    if js != [] {
      HighValueAgingJobsCount(js[1..]);
      assert js == [js[0]] + js[1..];
    }
  }

  // ---------------------------------------------------------------------
  // Totals

  /** What can be summed over jobs: amounts, ages, and jobs or keys counted. */
  datatype Measure = InvoiceAmount | BalanceAmount | AgeDays | Jobs | Keys

  function Value(j: OpenJob, m: Measure): real {
    match m
    case InvoiceAmount => j.invoiceTotal
    case BalanceAmount => j.balance
    case AgeDays => if j.age.Some? then j.age.value as real else 0.0
    case Jobs => 1.0
    case Keys => if j.key.Null? then 0.0 else 1.0
  }

  /** `.sum()` (missing values skipped) or `.count()` over a set of jobs. */
  function Total(js: seq<OpenJob>, m: Measure): real {
    if js == [] then 0.0 else Value(js[0], m) + Total(js[1..], m)
  }

  lemma {:induction false} TotalAppend(a: seq<OpenJob>, b: seq<OpenJob>, m: Measure)
    ensures Total(a + b, m) == Total(a, m) + Total(b, m)
  {
    if a == [] {
      assert a + b == b;
    } else {
      assert (a + b)[0] == a[0];
      assert (a + b)[1..] == a[1..] + b;
      TotalAppend(a[1..], b, m);
    }
  }

  lemma {:induction false} JobsCounted(js: seq<OpenJob>)
    ensures Total(js, Jobs) == |js| as real
  {
    if js != [] {
      JobsCounted(js[1..]);
    }
  }

  datatype Totals = Totals(invoice: real, collected: real, balance: real)

  /** The financial summary: invoiced, collected and remaining. */
  function FinancialSummary(js: seq<OpenJob>): Totals {
    var invoice := Total(js, InvoiceAmount);
    var balance := Total(js, BalanceAmount);
    Totals(invoice, invoice - balance, balance)
  }

  /** What each job has paid so far: its invoice total less its balance. */
  function PaidSum(js: seq<OpenJob>): real {
    if js == [] then 0.0 else (js[0].invoiceTotal - js[0].balance) + PaidSum(js[1..])
  }

  /** The collected total is the sum of what each job has paid. */
  lemma {:induction false} CollectedIsSumOfPayments(js: seq<OpenJob>)
    ensures FinancialSummary(js).collected == PaidSum(js)
  {
    if js != [] {
      CollectedIsSumOfPayments(js[1..]);
    }
  }

  /** Summaries of two disjoint sets of jobs add up to the summary of both. */
  lemma SummaryAdditive(a: seq<OpenJob>, b: seq<OpenJob>)
    ensures var s := FinancialSummary(a + b);
      var sa := FinancialSummary(a);
      var sb := FinancialSummary(b);
      s.invoice == sa.invoice + sb.invoice && s.collected == sa.collected + sb.collected
      && s.balance == sa.balance + sb.balance
  {
    TotalAppend(a, b, InvoiceAmount);
    TotalAppend(a, b, BalanceAmount);
  }

  // ---------------------------------------------------------------------
  // Grouping

  /** The jobs whose group key is `k`, in order. */
  function Select<K(==)>(js: seq<OpenJob>, key: OpenJob -> Option<K>, k: K): (r: seq<OpenJob>)
    ensures forall j :: j in r <==> j in js && key(j) == Some(k)
  {
    if js == [] then []
    else
      assert js == [js[0]] + js[1..];
      (if key(js[0]) == Some(k) then [js[0]] else []) + Select(js[1..], key, k)
  }

  /** The jobs that have a group key at all (those `groupby` and `value_counts` see). */
  function Grouped<K(==)>(js: seq<OpenJob>, key: OpenJob -> Option<K>): (r: seq<OpenJob>)
    ensures forall j :: j in r <==> j in js && key(j).Some?
  {
    if js == [] then []
    else
      assert js == [js[0]] + js[1..];
      (if key(js[0]).Some? then [js[0]] else []) + Grouped(js[1..], key)
  }

  /** A group keeps the order of its jobs. */
  lemma {:induction false} SelectAppend<K>(a: seq<OpenJob>, b: seq<OpenJob>, key: OpenJob -> Option<K>, k: K)
    ensures Select(a + b, key, k) == Select(a, key, k) + Select(b, key, k)
  {
    if a == [] {
      assert a + b == b;
    } else {
      assert (a + b)[0] == a[0];
      assert (a + b)[1..] == a[1..] + b;
      SelectAppend(a[1..], b, key, k);
    }
  }

  /** A group holds each of its jobs as often as it occurs, so its size counts them. */
  lemma {:induction false} SelectCount<K>(js: seq<OpenJob>, key: OpenJob -> Option<K>, k: K)
    ensures forall x :: multiset(Select(js, key, k))[x] == if key(x) == Some(k) then multiset(js)[x] else 0
  {
    if js != [] {
      SelectCount(js[1..], key, k);
      assert js == [js[0]] + js[1..];
    }
  }

  /** The grouped jobs keep their order. */
  lemma {:induction false} GroupedAppend<K>(a: seq<OpenJob>, b: seq<OpenJob>, key: OpenJob -> Option<K>)
    ensures Grouped(a + b, key) == Grouped(a, key) + Grouped(b, key)
  {
    if a == [] {
      assert a + b == b;
    } else {
      assert (a + b)[0] == a[0];
      assert (a + b)[1..] == a[1..] + b;
      GroupedAppend(a[1..], b, key);
    }
  }

  /** Each job with a group key is grouped as often as it occurs. */
  lemma {:induction false} GroupedCount<K>(js: seq<OpenJob>, key: OpenJob -> Option<K>)
    ensures forall x :: multiset(Grouped(js, key))[x] == if key(x).Some? then multiset(js)[x] else 0
  {
    if js != [] {
      GroupedCount(js[1..], key);
      assert js == [js[0]] + js[1..];
    }
  }

  /** The sum, over the group keys `ks`, of each group's total. */
  function TotalOver<K(==)>(js: seq<OpenJob>, key: OpenJob -> Option<K>, ks: seq<K>, m: Measure): real {
    if ks == [] then 0.0 else Total(Select(js, key, ks[0]), m) + TotalOver(js, key, ks[1..], m)
  }

  predicate DistinctKeys<K(==)>(ks: seq<K>) {
    forall i, j :: 0 <= i < j < |ks| ==> ks[i] != ks[j]
  }

  lemma {:induction false} TotalOverNone<K>(key: OpenJob -> Option<K>, ks: seq<K>, m: Measure)
    ensures TotalOver([], key, ks, m) == 0.0
  {
    if ks != [] {
      TotalOverNone(key, ks[1..], m);
    }
  }

  lemma TotalSelectFirst<K>(js: seq<OpenJob>, key: OpenJob -> Option<K>, k: K, m: Measure)
    requires js != []
    ensures Total(Select(js, key, k), m)
      == (if key(js[0]) == Some(k) then Value(js[0], m) else 0.0) + Total(Select(js[1..], key, k), m)
  {
    var rest := Select(js[1..], key, k);
    var sel := Select(js, key, k);
    if key(js[0]) == Some(k) {
      assert sel == [js[0]] + rest;
      assert sel != [] && sel[0] == js[0] && sel[1..] == rest;
      assert Total(sel, m) == Value(js[0], m) + Total(rest, m);
    } else {
      assert sel == rest;
    }
  }

  /** One job contributes its value to the one group it is in, and nothing to the others. */
  lemma {:induction false} TotalOverFirstJob<K>(js: seq<OpenJob>, key: OpenJob -> Option<K>, ks: seq<K>, m: Measure)
    requires js != [] && DistinctKeys(ks)
    ensures TotalOver(js, key, ks, m)
      == (if key(js[0]).Some? && key(js[0]).value in ks then Value(js[0], m) else 0.0)
         + TotalOver(js[1..], key, ks, m)
  {
    if ks != [] {
      assert DistinctKeys(ks[1..]);
      TotalOverFirstJob(js, key, ks[1..], m);
      TotalSelectFirst(js, key, ks[0], m);
      if key(js[0]) == Some(ks[0]) {
        assert key(js[0]).value !in ks[1..];
      }
    }
  }

  /**
   * Grouping partitions the grouped jobs: over distinct keys that cover every
   * key, the group totals add up to the total of all grouped jobs.
   */
  lemma {:induction false} GroupTotalsAddUp<K>(js: seq<OpenJob>, key: OpenJob -> Option<K>, ks: seq<K>, m: Measure)
    requires DistinctKeys(ks)
    requires forall j :: j in js && key(j).Some? ==> key(j).value in ks
    ensures TotalOver(js, key, ks, m) == Total(Grouped(js, key), m)
  {
    if js == [] {
      TotalOverNone(key, ks, m);
    } else {
      assert js == [js[0]] + js[1..];
      TotalOverFirstJob(js, key, ks, m);
      GroupTotalsAddUp(js[1..], key, ks, m);
      var first := if key(js[0]).Some? then [js[0]] else [];
      TotalAppend(first, Grouped(js[1..], key), m);
    }
  }

  // ---------------------------------------------------------------------
  // Per coordinator

  /** The coordinator a job is grouped under; a missing one groups nowhere. */
  function CoordinatorKey(j: OpenJob): Option<string> {
    if j.coordinator.Null? then None else Some(PyStr(j.coordinator))
  }

  /** The coordinators with open jobs, first occurrence first (`unique()` without the missing value). */
  function UniqueCoordinators(js: seq<OpenJob>, seen: seq<string>): (r: seq<string>)
    requires NoDuplicates(seen)
    ensures NoDuplicates(r)
    ensures forall x :: x in r <==> x in seen || exists j :: j in js && CoordinatorKey(j) == Some(x)
  {
    if js == [] then seen
    else
      assert js == [js[0]] + js[1..];
      match CoordinatorKey(js[0])
      case None => UniqueCoordinators(js[1..], seen)
      case Some(c) =>
        if c in seen then UniqueCoordinators(js[1..], seen)
        else UniqueCoordinators(js[1..], seen + [c])
  }

  /** The coordinators who get a tab: sorted, each once, exactly those with an open job. */
  function Coordinators(js: seq<OpenJob>): (r: seq<string>)
    ensures Sorted(r) && NoDuplicates(r)
    ensures forall x :: x in r <==> exists j :: j in js && CoordinatorKey(j) == Some(x)
  {
    var u := UniqueCoordinators(js, []);
    SortedDistinct(u);
    SortStrings(u)
  }

  /** A coordinator's open jobs. */
  function JobsOf(js: seq<OpenJob>, name: string): seq<OpenJob> {
    Select(js, CoordinatorKey, name)
  }

  /** Each coordinator's totals add up to the totals of the jobs that have a coordinator. */
  lemma PerCoordinatorTotalsAddUp(js: seq<OpenJob>, m: Measure)
    ensures TotalOver(js, CoordinatorKey, Coordinators(js), m) == Total(Grouped(js, CoordinatorKey), m)
  {
    GroupTotalsAddUp(js, CoordinatorKey, Coordinators(js), m);
  }

  /** The same for collected amounts: per-coordinator collected sums to the collected of those jobs. */
  lemma PerCoordinatorCollectedAddsUp(js: seq<OpenJob>)
    ensures TotalOver(js, CoordinatorKey, Coordinators(js), InvoiceAmount)
          - TotalOver(js, CoordinatorKey, Coordinators(js), BalanceAmount)
         == FinancialSummary(Grouped(js, CoordinatorKey)).collected
  {
    PerCoordinatorTotalsAddUp(js, InvoiceAmount);
    PerCoordinatorTotalsAddUp(js, BalanceAmount);
  }

  // ---------------------------------------------------------------------
  // Per age bucket

  function BucketKey(j: OpenJob): Option<Bucket> {
    j.bucket
  }

  /** One row of the by-bucket aggregation. */
  datatype BucketRow = BucketRow(bucket: Bucket, invoice: real, balance: real, jobCount: real)

  /** `groupby('Age_Bucket', observed=False)`: a row for every bucket, in bucket order, empty ones included. */
  function ByBucket(js: seq<OpenJob>): (rows: seq<BucketRow>)
    ensures |rows| == |Buckets|
    ensures forall k :: 0 <= k < |Buckets| ==> rows[k].bucket == Buckets[k]
  {
    seq(|Buckets|, k requires 0 <= k < |Buckets| =>
      var group := Select(js, BucketKey, Buckets[k]);
      BucketRow(Buckets[k], Total(group, InvoiceAmount), Total(group, BalanceAmount), Total(group, Keys)))
  }

  function InvoiceColumn(rows: seq<BucketRow>): real {
    if rows == [] then 0.0 else rows[0].invoice + InvoiceColumn(rows[1..])
  }

  function CountColumn(rows: seq<BucketRow>): real {
    if rows == [] then 0.0 else rows[0].jobCount + CountColumn(rows[1..])
  }

  lemma BucketsDistinct()
    ensures DistinctKeys(Buckets)
    ensures forall b: Bucket :: b in Buckets
  {
    forall b: Bucket ensures b in Buckets {
      match b
      case FirstWeek => assert Buckets[0] == b;
      case TwoToThreeWeeks => assert Buckets[1] == b;
      case FourToSevenWeeks => assert Buckets[2] == b;
      case EighthWeek => assert Buckets[3] == b;
      case OverEightWeeks => assert Buckets[4] == b;
    }
  }

  lemma {:induction false} ColumnsAreTotalsOver(js: seq<OpenJob>, k: nat)
    requires k <= |Buckets|
    ensures InvoiceColumn(ByBucket(js)[k..]) == TotalOver(js, BucketKey, Buckets[k..], InvoiceAmount)
    ensures CountColumn(ByBucket(js)[k..]) == TotalOver(js, BucketKey, Buckets[k..], Keys)
    decreases |Buckets| - k
  {
    if k < |Buckets| {
      ColumnsAreTotalsOver(js, k + 1);
      assert ByBucket(js)[k..][1..] == ByBucket(js)[k + 1..];
      assert Buckets[k..][1..] == Buckets[k + 1..];
    }
  }

  /** The by-bucket invoice totals and job counts add up to those of every bucketed job. */
  lemma BucketTableAddsUp(js: seq<OpenJob>)
    ensures InvoiceColumn(ByBucket(js)) == Total(Grouped(js, BucketKey), InvoiceAmount)
    ensures CountColumn(ByBucket(js)) == Total(Grouped(js, BucketKey), Keys)
  {
    BucketsDistinct();
    ColumnsAreTotalsOver(js, 0);
    assert ByBucket(js)[0..] == ByBucket(js);
    assert Buckets[0..] == Buckets;
    GroupTotalsAddUp(js, BucketKey, Buckets, InvoiceAmount);
    GroupTotalsAddUp(js, BucketKey, Buckets, Keys);
  }

  /** `value_counts()` of the bucket column: one count per bucket, in bucket order. */
  function BucketCounts(js: seq<OpenJob>): (counts: seq<nat>)
    ensures |counts| == |Buckets|
  {
    seq(|Buckets|, k requires 0 <= k < |Buckets| => |Select(js, BucketKey, Buckets[k])|)
  }

  /**
   * Each bucket's count is the number of jobs in that bucket, and over the
   * five buckets the counts add up to the number of jobs that have a bucket.
   */
  lemma BucketCountsAddUp(js: seq<OpenJob>)
    ensures forall k :: 0 <= k < |Buckets| ==>
      BucketCounts(js)[k] as real == Total(Select(js, BucketKey, Buckets[k]), Jobs)
    ensures TotalOver(js, BucketKey, Buckets, Jobs) == |Grouped(js, BucketKey)| as real
  {
    forall k | 0 <= k < |Buckets|
      ensures BucketCounts(js)[k] as real == Total(Select(js, BucketKey, Buckets[k]), Jobs)
    {
      JobsCounted(Select(js, BucketKey, Buckets[k]));
    }
    BucketsDistinct();
    GroupTotalsAddUp(js, BucketKey, Buckets, Jobs);
    JobsCounted(Grouped(js, BucketKey));
  }

  // ---------------------------------------------------------------------
  // Status counts

  function StatusKey(j: OpenJob): Option<Cell> {
    if j.status.Null? then None else Some(j.status)
  }

  /** The statuses present, first occurrence first. */
  function StatusesPresent(js: seq<OpenJob>, seen: seq<Cell>): (r: seq<Cell>)
    requires DistinctKeys(seen)
    ensures DistinctKeys(r)
    ensures forall s :: s in r <==> s in seen || exists j :: j in js && StatusKey(j) == Some(s)
  {
    if js == [] then seen
    else
      assert js == [js[0]] + js[1..];
      match StatusKey(js[0])
      case None => StatusesPresent(js[1..], seen)
      case Some(s) =>
        if s in seen then StatusesPresent(js[1..], seen)
        else StatusesPresent(js[1..], seen + [s])
  }

  /** `value_counts()` of the status column: each status present with its number of jobs. */
  function StatusCounts(js: seq<OpenJob>): (counts: seq<(Cell, nat)>)
    ensures forall s :: (exists n :: (s, n) in counts) <==> exists j :: j in js && StatusKey(j) == Some(s)
  {
    var present := StatusesPresent(js, []);
    var counts := seq(|present|, i requires 0 <= i < |present| => (present[i], |Select(js, StatusKey, present[i])|));
    assert forall s :: (exists n :: (s, n) in counts) <==> s in present by {
      forall s ensures (exists n :: (s, n) in counts) <==> s in present {
        if s in present {
          var i :| 0 <= i < |present| && present[i] == s;
          assert (s, |Select(js, StatusKey, s)|) == counts[i];
        }
      }
    }
    counts
  }

  /** Each status is counted with the number of jobs that have it. */
  lemma StatusCountsCountJobs(js: seq<OpenJob>)
    ensures forall p :: p in StatusCounts(js) ==> p.1 as real == Total(Select(js, StatusKey, p.0), Jobs)
  {
    forall p | p in StatusCounts(js)
      ensures p.1 as real == Total(Select(js, StatusKey, p.0), Jobs)
    {
      JobsCounted(Select(js, StatusKey, p.0));
    }
  }

  /** The status counts add up to the number of jobs that have a status. */
  lemma StatusCountsAddUp(js: seq<OpenJob>)
    ensures TotalOver(js, StatusKey, StatusesPresent(js, []), Jobs) == |Grouped(js, StatusKey)| as real
  {
    GroupTotalsAddUp(js, StatusKey, StatusesPresent(js, []), Jobs);
    JobsCounted(Grouped(js, StatusKey));
  }
}
