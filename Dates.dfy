/**
 * Python `datetime` values as the sorter uses them: construction limits,
 * comparison of naive values, and the `strftime` renderings `%Y%m%d`
 * and `%Y/%m/%d`.
 */
module Dates {
  import opened Wrappers
  import opened Text

  /** A `datetime`: `offset` is the UTC offset in microseconds of an aware value, None for a naive one. */
  datatype Stamp = Stamp(year: int, month: int, day: int, hour: int, minute: int, second: int,
                         micro: int, offset: Option<int>)
  {
    /** The ranges `datetime(...)` and `timezone(...)` accept; anything else raises ValueError. */
    predicate Valid() {
      && 1 <= year <= 9999
      && 1 <= month <= 12
      && 1 <= day <= DaysInMonth(year, month)
      && 0 <= hour < 24
      && 0 <= minute < 60
      && 0 <= second < 60
      && 0 <= micro < 1000000
      && (offset.Some? ==> -MicrosPerDay < offset.value < MicrosPerDay)
    }

    predicate Aware() {
      offset.Some?
    }
  }

  type DateTime = d: Stamp | d.Valid() witness Stamp(1, 1, 1, 0, 0, 0, 0, None)

  const MicrosPerDay: int := 86400 * 1000000

  predicate IsLeapYear(y: int) {
    y % 4 == 0 && (y % 100 != 0 || y % 400 == 0)
  }

  function DaysInMonth(y: int, m: int): (n: int)
    requires 1 <= m <= 12
    ensures 28 <= n <= 31
  {
    if m == 2 then (if IsLeapYear(y) then 29 else 28)
    else if m == 4 || m == 6 || m == 9 || m == 11 then 30
    else 31
  }

  /** `a > b` for two naive datetimes: field by field, most significant first. */
  predicate LaterThan(a: Stamp, b: Stamp) {
    if a.year != b.year then a.year > b.year
    else if a.month != b.month then a.month > b.month
    else if a.day != b.day then a.day > b.day
    else if a.hour != b.hour then a.hour > b.hour
    else if a.minute != b.minute then a.minute > b.minute
    else if a.second != b.second then a.second > b.second
    else a.micro > b.micro
  }

  /** Equal on every field that the naive comparison looks at. */
  predicate SameInstant(a: Stamp, b: Stamp) {
    a.year == b.year && a.month == b.month && a.day == b.day &&
    a.hour == b.hour && a.minute == b.minute && a.second == b.second && a.micro == b.micro
  }

  /** The naive order is a strict total order: irreflexive, asymmetric, transitive and total. */
  lemma LaterThanIsStrictTotalOrder(a: Stamp, b: Stamp, c: Stamp)
    ensures !LaterThan(a, a)
    ensures LaterThan(a, b) ==> !LaterThan(b, a)
    ensures LaterThan(a, b) && LaterThan(b, c) ==> LaterThan(a, c)
    ensures LaterThan(a, b) || LaterThan(b, a) || SameInstant(a, b)
  {
  }

  predicate SameDay(a: Stamp, b: Stamp) {
    a.year == b.year && a.month == b.month && a.day == b.day
  }

  /** `%m`-style rendering: two digits, zero-padded. */
  function Pad2(n: nat): (r: string)
    requires n < 100
    ensures |r| == 2 && AllDigits(r) && DecimalValue(r) == n
  {
    var r := [DigitChar(n / 10), DigitChar(n % 10)];
    DecimalTwo(r);
    r
  }

  lemma DecimalTwo(s: string)
    requires |s| == 2 && AllDigits(s)
    ensures DecimalValue(s) == DigitValue(s[0]) * 10 + DigitValue(s[1])
  {
    assert s[..1] == [s[0]] && [s[0]][..0] == [];
    assert DecimalValue([s[0]]) == DigitValue(s[0]);
  }

  /** `%Y`-style rendering: four digits, zero-padded. */
  function Pad4(n: nat): (r: string)
    requires n < 10000
    ensures |r| == 4 && AllDigits(r) && DecimalValue(r) == n
  {
    var r := Pad2(n / 100) + Pad2(n % 100);
    DecimalAppend(Pad2(n / 100), Pad2(n % 100));
    r
  }

  /** The value of two digit strings written one after the other. */
  lemma {:induction false} DecimalAppend(a: string, b: string)
    requires AllDigits(a) && AllDigits(b) && |b| == 2
    ensures AllDigits(a + b) && DecimalValue(a + b) == DecimalValue(a) * 100 + DecimalValue(b)
  {
    var s := a + b;
    var a0 := a + [b[0]];
    assert s[..|s| - 1] == a0 && a0[..|a0| - 1] == a;
    DecimalTwo(b);
    var va, d0, d1 := DecimalValue(a), DigitValue(b[0]), DigitValue(b[1]);
    assert DecimalValue(a0) == va * 10 + d0;
    assert DecimalValue(s) == (va * 10 + d0) * 10 + d1;
    assert DecimalValue(b) == d0 * 10 + d1;
  }

  /** `strftime(d, '%Y%m%d')`: the eight-character compact date. */
  function CompactDate(d: DateTime): (r: string)
    ensures |r| == 8
  {
    Pad4(d.year) + Pad2(d.month) + Pad2(d.day)
  }

  /** `strftime(d, '%Y/%m/%d')`, the sorter's FOLDER_FORMAT. */
  function FolderDate(d: DateTime): (r: string)
    ensures |r| == 10
  {
    Pad4(d.year) + "/" + Pad2(d.month) + "/" + Pad2(d.day)
  }

  /** Two datetimes share a compact rendering exactly when they fall on the same day. */
  lemma CompactDateSameDay(a: DateTime, b: DateTime)
    ensures CompactDate(a) == CompactDate(b) <==> SameDay(a, b)
  {
    if CompactDate(a) == CompactDate(b) {
      var ra, rb := CompactDate(a), CompactDate(b);
      assert ra[..4] == Pad4(a.year) && rb[..4] == Pad4(b.year);
      assert ra[4..6] == Pad2(a.month) && rb[4..6] == Pad2(b.month);
      assert ra[6..] == Pad2(a.day) && rb[6..] == Pad2(b.day);
    }
  }

  /** Two datetimes share a folder rendering exactly when they fall on the same day. */
  lemma FolderDateSameDay(a: DateTime, b: DateTime)
    ensures FolderDate(a) == FolderDate(b) <==> SameDay(a, b)
  {
    if FolderDate(a) == FolderDate(b) {
      var ra, rb := FolderDate(a), FolderDate(b);
      assert ra[..4] == Pad4(a.year) && rb[..4] == Pad4(b.year);
      assert ra[5..7] == Pad2(a.month) && rb[5..7] == Pad2(b.month);
      assert ra[8..] == Pad2(a.day) && rb[8..] == Pad2(b.day);
    }
  }

  /** The fields of 10 October 2010 at 10:10:10, zero-padded. */
  lemma Pad2010()
    ensures Pad4(2010) == "2010" && Pad2(10) == "10"
  {
  }

  /** The fields of 15 June 2023, zero-padded. */
  lemma Pad2023()
    ensures Pad4(2023) == "2023" && Pad2(6) == "06" && Pad2(15) == "15"
  {
    Pad4Of2023();
    Pad2Of6();
  }

  lemma Pad4Of2023()
    ensures Pad4(2023) == "2023"
  {
  }

  lemma Pad2Of6()
    ensures Pad2(6) == "06"
  {
  }
}
