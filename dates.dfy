/**
 * `_adjust_ambiguous_date_years` of data_utils.py: a date read without a
 * year is parsed into the current year; if that puts it in the future it
 * must belong to the previous year, and is moved back one year. The shift
 * by one calendar year (`DateOffset(years=1)`, with its leap-day rule) is a
 * parameter; the lemmas state what they need of it.
 */
module DateAdjust {
  import opened Cells

  /** A column the adjustment applies to: every entry a timestamp or nothing. */
  predicate IsDateSeries(series: seq<Cell>) {
    forall i :: 0 <= i < |series| ==> IsDateCell(series[i])
  }

  /** A date in the current year that lies after `now`. */
  predicate Ambiguous(c: Cell, now: Timestamp) {
    c.Date? && c.t.year == now.year && c.t.instant > now.instant
  }

  /** What the lemmas ask of the one-year shift: one calendar year earlier, and earlier in time. */
  ghost predicate IsYearBack(yearBack: Timestamp -> Timestamp) {
    forall t :: yearBack(t).year == t.year - 1 && yearBack(t).instant < t.instant
  }

  function AdjustEntry(c: Cell, now: Timestamp, yearBack: Timestamp -> Timestamp): Cell {
    if Ambiguous(c, now) then Date(yearBack(c.t)) else c
  }

  /** The adjusted column; an empty or non-date column comes back as it is. */
  function AdjustAmbiguousDateYears(series: seq<Cell>, now: Timestamp, yearBack: Timestamp -> Timestamp): (r: seq<Cell>)
    ensures |r| == |series|
    ensures series == [] || !IsDateSeries(series) ==> r == series
    ensures forall i :: 0 <= i < |series| && !Ambiguous(series[i], now) ==> r[i] == series[i]
    ensures IsDateSeries(series) ==>
      forall i :: 0 <= i < |series| && Ambiguous(series[i], now) ==> r[i] == Date(yearBack(series[i].t))
  {
    if series == [] || !IsDateSeries(series) then series
    else seq(|series|, i requires 0 <= i < |series| => AdjustEntry(series[i], now, yearBack))
  }

  /** After the adjustment, no date of the current year lies in the future, and the column is still a date column. */
  lemma NoFutureDateRemains(series: seq<Cell>, now: Timestamp, yearBack: Timestamp -> Timestamp)
    requires IsDateSeries(series) && IsYearBack(yearBack)
    ensures var r := AdjustAmbiguousDateYears(series, now, yearBack);
      IsDateSeries(r) && forall i :: 0 <= i < |r| ==> !Ambiguous(r[i], now)
  {
    var r := AdjustAmbiguousDateYears(series, now, yearBack);
    forall i | 0 <= i < |r| ensures IsDateCell(r[i]) && !Ambiguous(r[i], now) {
      if Ambiguous(series[i], now) {
        assert r[i] == Date(yearBack(series[i].t));
        assert yearBack(series[i].t).year == now.year - 1;
      }
    }
  }

  /** Adjusting an adjusted column changes nothing more. */
  lemma AdjustIdempotent(series: seq<Cell>, now: Timestamp, yearBack: Timestamp -> Timestamp)
    requires IsYearBack(yearBack)
    ensures var once := AdjustAmbiguousDateYears(series, now, yearBack);
      AdjustAmbiguousDateYears(once, now, yearBack) == once
  {
    if series != [] && IsDateSeries(series) {
      NoFutureDateRemains(series, now, yearBack);
    }
  }

  /** Every adjusted date moves into the past and into the previous year; nothing else moves. */
  lemma AdjustedDatesMoveBack(series: seq<Cell>, now: Timestamp, yearBack: Timestamp -> Timestamp, i: nat)
    requires IsYearBack(yearBack) && i < |series|
    ensures var r := AdjustAmbiguousDateYears(series, now, yearBack);
      r[i] != series[i] ==>
        && Ambiguous(series[i], now)
        && r[i].Date? && r[i].t.year == now.year - 1 && r[i].t.instant < series[i].t.instant
  {
  }
}
