/**
 * The values a record cell can hold once the loaders have run: nothing
 * (NaN/NaT/None), text, an integer, a float, or a timestamp; and the text
 * Python's `str()` gives each of them.
 */
module Cells {
  import opened PyStrings

  /**
   * A point in time: its calendar year and its instant in whole seconds since
   * the epoch. The two are kept consistent by whoever builds the value; the
   * calendar itself (months, leap days) is not part of the model.
   */
  datatype Timestamp = Timestamp(year: int, instant: int)

  datatype Cell =
    | Null
    | Text(s: string)
    | Int(i: int)
    | Real(x: real)
    | Date(t: Timestamp)

  /** The most fractional digits `str` of a float shows. */
  const FloatFractionDigits: nat := 17

  /** Up to `n` decimal digits of a fraction 0 <= f < 1, stopping once the rest is zero. */
  function FractionDigits(f: real, n: nat): (s: string)
    requires 0.0 <= f < 1.0
    ensures |s| <= n && AllDigits(s)
    decreases n
  {
    if n == 0 || f == 0.0 then ""
    else
      var scaled := f * 10.0;
      var d := scaled.Floor;
      assert 0 <= d < 10;
      [DigitChar(d)] + FractionDigits(scaled - d as real, n - 1)
  }

  /** `repr` of a non-negative float: whole part, a point, and at least one fractional digit. */
  function UnsignedFloatText(x: real): string
    requires x >= 0.0
  {
    var whole := x.Floor;
    var frac := x - whole as real;
    NatText(whole) + "." + (if frac == 0.0 then "0" else FractionDigits(frac, FloatFractionDigits))
  }

  /** Python's `str(float)` for values whose shortest form has at most 17 fractional digits. */
  function FloatText(x: real): string {
    if x < 0.0 then "-" + UnsignedFloatText(-x) else UnsignedFloatText(x)
  }

  /** `str()` of a timestamp: an opaque rendering that keeps distinct timestamps distinct. */
  function StampText(t: Timestamp): string {
    IntText(t.year) + "@" + IntText(t.instant)
  }

  /** `str(value)` / `Series.astype(str)` of one cell; a missing value renders as "nan". */
  function PyStr(c: Cell): string {
    match c
    case Null => "nan"
    case Text(s) => s
    case Int(i) => IntText(i)
    case Real(x) => FloatText(x)
    case Date(t) => StampText(t)
  }

  /** Python truthiness of a cell value (`if value:`); a missing value is falsy. */
  predicate Truthy(c: Cell) {
    match c
    case Null => false
    case Text(s) => s != ""
    case Int(i) => i != 0
    case Real(x) => x != 0.0
    case Date(_) => true
  }

  /** Cells that a date column may hold after `to_datetime(..., errors='coerce')`. */
  predicate IsDateCell(c: Cell) {
    c.Null? || c.Date?
  }

  /**
   * Key normalisation: an integer key and its decimal text normalise to the
   * same key, and distinct integer keys never collide.
   */
  lemma IntKeysNormalise(a: int, b: int)
    ensures PyStr(Int(a)) == PyStr(Text(IntText(a)))
    ensures PyStr(Int(a)) == PyStr(Int(b)) <==> a == b
  {
    if PyStr(Int(a)) == PyStr(Int(b)) {
      IntTextInjective(a, b);
    }
  }
}
