/** `normalizeMonth` (src/App.tsx lines 21-31), applied to every record a
    fetch returns. JavaScript's `Date` parser is not modelled: it is the
    `parse` parameter, which either rejects a string (an invalid date) or
    reports the local calendar year and 0-based month it denotes. */
module Month {
  import opened Wrappers
  import opened Text
  import opened Records

  /** `getMonth()`: January is 0. */
  type MonthIndex = i: int | 0 <= i < 12

  datatype CalendarMonth = CalendarMonth(year: int, monthIndex: MonthIndex)

  /** `/^\d{4}-\d{2}$/.test(s)`. */
  predicate IsCanonical(s: string) {
    |s| == 7 && AllDigits(s[..4]) && s[4] == '-' && AllDigits(s[5..])
  }

  /** `` `${year}-${String(month + 1).padStart(2, '0')}` ``. */
  function FormatMonth(c: CalendarMonth): (s: string)
    ensures 1000 <= c.year <= 9999 ==> IsCanonical(s)
  {
    var year := IntToDecimal(c.year);
    var month := PadStart(NatToDecimal(c.monthIndex + 1), 2, '0');
    if 1000 <= c.year <= 9999 then
      FourDigitRendering(c.year);
      MonthDigits(c.monthIndex);
      CanonicalParts(year, month);
      year + "-" + month
    else year + "-" + month
  }

  lemma CanonicalParts(year: string, month: string)
    requires |year| == 4 && AllDigits(year)
    requires |month| == 2 && AllDigits(month)
    ensures var s := year + "-" + month;
      IsCanonical(s) && s[..4] == year && s[5..] == month
  {
    var s := year + "-" + month;
    assert s[..4] == year && s[5..] == month;
  }

  lemma MonthDigits(i: MonthIndex)
    ensures var m := PadStart(NatToDecimal(i + 1), 2, '0');
      |m| == 2 && AllDigits(m)
  {
    var d := NatToDecimal(i + 1);
    if i + 1 >= 10 {
      assert d == NatToDecimal(1) + [DigitChar((i + 1) % 10)];
    }
  }

  /** Reads a canonical month key back into a calendar month. */
  function ReadMonth(s: string): Option<CalendarMonth> {
    if IsCanonical(s) then
      var m := ParseDigits(s[5..]);
      if 1 <= m <= 12 then Some(CalendarMonth(ParseDigits(s[..4]), m - 1)) else None
    else None
  }

  lemma {:induction false} LeadingZero(s: string)
    requires AllDigits(s)
    ensures AllDigits(['0'] + s) && ParseDigits(['0'] + s) == ParseDigits(s)
    decreases |s|
  {
    if |s| > 0 {
      var z := ['0'] + s;
      assert z[..|z| - 1] == ['0'] + s[..|s| - 1];
      LeadingZero(s[..|s| - 1]);
    } else {
      assert DigitValue('0') == 0;
    }
  }

  lemma PaddedMonthValue(i: MonthIndex)
    ensures var m := PadStart(NatToDecimal(i + 1), 2, '0');
      AllDigits(m) && ParseDigits(m) == i + 1
  {
    var d := NatToDecimal(i + 1);
    MonthDigits(i);
    ParseNatToDecimal(i + 1);
    if i + 1 < 10 {
      assert PadStart(d, 2, '0') == ['0'] + d;
      LeadingZero(d);
    }
  }

  /** A four-digit year formats into a key that reads back as itself. */
  lemma FormatMonthRoundTrip(c: CalendarMonth)
    requires 1000 <= c.year <= 9999
    ensures ReadMonth(FormatMonth(c)) == Some(c)
  {
    var year := NatToDecimal(c.year);
    var month := PadStart(NatToDecimal(c.monthIndex + 1), 2, '0');
    FourDigitRendering(c.year);
    MonthDigits(c.monthIndex);
    CanonicalParts(year, month);
    assert FormatMonth(c) == year + "-" + month;
    ParseNatToDecimal(c.year);
    PaddedMonthValue(c.monthIndex);
  }

  /** `normalizeMonth(val)`: empty stays empty, a canonical key passes
      through, a parseable date is reformatted, anything else is kept. */
  function NormalizeMonth(val: string, parse: string -> Option<CalendarMonth>): (r: string)
    ensures val == "" ==> r == ""
    ensures IsCanonical(val) ==> r == val
    ensures val != "" && !IsCanonical(val) && parse(val).None? ==> r == val
    ensures val != "" && !IsCanonical(val) && parse(val).Some? ==>
      r == FormatMonth(parse(val).value)
    ensures val != "" && !IsCanonical(val) && parse(val).Some? && 1000 <= parse(val).value.year <= 9999 ==>
      ReadMonth(r) == parse(val)
  {
    if val == "" then ""
    else if IsCanonical(val) then val
    else match parse(val)
      case Some(c) =>
        if 1000 <= c.year <= 9999 then FormatMonthRoundTrip(c); FormatMonth(c)
        else FormatMonth(c)
      case None => val
  }

  /** The parser's answer for `val` is a year `String` renders with four
      digits (or it has no answer). */
  predicate FourDigitYear(val: string, parse: string -> Option<CalendarMonth>) {
    parse(val).Some? ==> 1000 <= parse(val).value.year <= 9999
  }

  /** `normalizeMonth` settles `val` in one pass: it is empty, already
      canonical, or the parser's answer has a year `String` renders with
      four digits. */
  predicate SettlesInOnePass(val: string, parse: string -> Option<CalendarMonth>) {
    val == "" || IsCanonical(val) || FourDigitYear(val, parse)
  }

  /** Normalizing a normalized key changes nothing, unless the parser
      answers for a non-canonical `val` with a year outside 1000-9999,
      which `String` would render with other than four digits. */
  lemma NormalizeIdempotent(val: string, parse: string -> Option<CalendarMonth>)
    requires SettlesInOnePass(val, parse)
    ensures NormalizeMonth(NormalizeMonth(val, parse), parse) == NormalizeMonth(val, parse)
  {
  }

  /** The `json.map(item => ({ ...item, month: normalizeMonth(item.month) }))`
      step of a fetch: only month keys change. */
  function NormalizeRecords(rows: seq<Record>, parse: string -> Option<CalendarMonth>): (r: seq<Record>)
    ensures |r| == |rows|
    ensures forall i :: 0 <= i < |rows| ==>
      r[i] == rows[i].(month := NormalizeMonth(rows[i].month, parse))
  {
    if |rows| == 0 then []
    else [rows[0].(month := NormalizeMonth(rows[0].month, parse))] + NormalizeRecords(rows[1..], parse)
  }

  /** Re-normalizing fetched records is a no-op under the same condition. */
  lemma NormalizeRecordsIdempotent(rows: seq<Record>, parse: string -> Option<CalendarMonth>)
    requires forall i :: 0 <= i < |rows| ==> SettlesInOnePass(rows[i].month, parse)
    ensures NormalizeRecords(NormalizeRecords(rows, parse), parse) == NormalizeRecords(rows, parse)
  {
    var once := NormalizeRecords(rows, parse);
    forall i | 0 <= i < |rows| ensures NormalizeRecords(once, parse)[i] == once[i] {
      NormalizeIdempotent(rows[i].month, parse);
    }
  }
}
