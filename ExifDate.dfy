/**
 * `get_exif_creation_date`: find the first exiftool output line that
 * mentions "Create Date", take the text between its first and second
 * " : ", strip it and parse it with `datetime.strptime`, first as
 * "%Y:%m:%d %H:%M:%S" and, when that raises ValueError, as
 * "%Y:%m:%d %H:%M:%S%z".
 *
 * `strptime` is modelled on CPython's implementation: each directive is a
 * regular expression (`%Y` four digits, `%m %d %H %M %S` one or two digits
 * in range, `%d` also a space and one digit, a space in the format any run
 * of whitespace, `%z` as in ParseZone), the whole string must be consumed,
 * and the fields must then pass the `datetime` constructor.
 */
module ExifDate {
  import opened Wrappers
  import opened Text
  import opened Dates

  const CreateDateTag: string := "Create Date"
  const ValueSeparator: string := " : "

  /** What `get_exif_info` returns: the tool's standard output decoded as UTF-8, or None when decoding fails. */
  datatype ExifOutput = Undecodable | Decoded(text: string)

  /** The two exceptions that can leave `get_exif_creation_date`. */
  datatype ExifError =
    | NoValueSeparator   // IndexError: the tagged line has no " : "
    | BadTimestamp       // ValueError from the second strptime

  datatype ExifLookup = NoDate | Found(date: DateTime) | Raises(error: ExifError)

  /** `out.decode("utf-8").split("\n")`. */
  function OutputLines(out: ExifOutput): Option<seq<string>> {
    match out
    case Undecodable => None
    case Decoded(text) => Some(Split(text, "\n"))
  }

  /** Index of the first line that contains the tag. */
  function FirstTagged(lines: seq<string>): (r: Option<nat>)
    ensures r.Some? ==> r.value < |lines| && Contains(lines[r.value], CreateDateTag)
    ensures r.Some? ==> forall k :: 0 <= k < r.value ==> !Contains(lines[k], CreateDateTag)
    ensures r.None? ==> forall k :: 0 <= k < |lines| ==> !Contains(lines[k], CreateDateTag)
  {
    if lines == [] then None
    else if Contains(lines[0], CreateDateTag) then Some(0)
    else match FirstTagged(lines[1..])
      case None => None
      case Some(k) => Some(k + 1)
  }

  /** `str(l.split(" : ")[1].strip())`; None stands for the IndexError of a line without " : ". */
  function TagValue(line: string): Option<string> {
    var parts := Split(line, ValueSeparator);
    if |parts| < 2 then None else Some(Strip(parts[1]))
  }

  /** The loop body for the first tagged line: it always returns or raises. */
  function LineDate(line: string): ExifLookup {
    match TagValue(line)
    case None => Raises(NoValueSeparator)
    case Some(v) =>
      match ParseTimestamp(v)
      case None => Raises(BadTimestamp)
      case Some(d) => Found(d)
  }

  function LinesDate(lines: seq<string>): ExifLookup {
    match FirstTagged(lines)
    case None => NoDate
    case Some(k) => LineDate(lines[k])
  }

  /** `get_exif_creation_date` applied to the tool's output. */
  function ExifCreationDate(out: ExifOutput): ExifLookup {
    match OutputLines(out)
    case None => NoDate
    case Some(lines) => LinesDate(lines)
  }

  // ---------------------------------------------------------------------------
  // strptime

  /** A directive's reading: the value it read and the text left after it. */
  datatype Scan = Scan(value: nat, rest: string)

  /** Length of the run of ASCII digits starting at `i`. */
  function DigitRun(s: string, i: nat): (n: nat)
    requires i <= |s|
    ensures i + n <= |s|
    ensures forall k :: i <= k < i + n ==> IsDigit(s[k])
    ensures i + n == |s| || !IsDigit(s[i + n])
    decreases |s| - i
  {
    if i < |s| && IsDigit(s[i]) then 1 + DigitRun(s, i + 1) else 0
  }

  /** Length of the run of whitespace starting at `i`. */
  function SpaceRun(s: string, i: nat): (n: nat)
    requires i <= |s|
    ensures i + n <= |s|
    ensures forall k :: i <= k < i + n ==> IsSpace(s[k])
    ensures i + n == |s| || !IsSpace(s[i + n])
    decreases |s| - i
  {
    if i < |s| && IsSpace(s[i]) then 1 + SpaceRun(s, i + 1) else 0
  }

  /** The number the first `n` characters of `s`, all digits, denote. */
  function LeadingValue(s: string, n: nat): (v: nat)
    requires n <= |s|
    requires forall k :: 0 <= k < n ==> IsDigit(s[k])
    ensures n == 1 ==> v == DigitValue(s[0])
    ensures n == 2 ==> v == DigitValue(s[0]) * 10 + DigitValue(s[1])
    ensures n == 4 ==> v == DigitValue(s[0]) * 1000 + DigitValue(s[1]) * 100 + DigitValue(s[2]) * 10 + DigitValue(s[3])
  {
    var t := s[..n];
    assert AllDigits(t) by {
      forall k | 0 <= k < n ensures IsDigit(t[k]) { assert t[k] == s[k]; }
    }
    assert n == 1 || n == 2 || n == 4 ==> DecimalValue(t) == DecimalPrefix(t, n) by {
      if n == 1 || n == 2 || n == 4 {
        DecimalUpTo(t, n);
      }
    }
    assert n >= 1 ==> DecimalPrefix(t, 1) == DigitValue(s[0]) by {
      if n >= 1 { assert t[0] == s[0]; }
    }
    assert n >= 2 ==> DecimalPrefix(t, 2) == DigitValue(s[0]) * 10 + DigitValue(s[1]) by {
      if n >= 2 { assert t[1] == s[1]; }
    }
    assert n == 4 ==> DecimalPrefix(t, 4) == DecimalPrefix(t, 2) * 100 + DigitValue(s[2]) * 10 + DigitValue(s[3]) by {
      if n == 4 {
        assert t[2] == s[2] && t[3] == s[3];
        assert DecimalPrefix(t, 3) == DecimalPrefix(t, 2) * 10 + DigitValue(t[2]);
      }
    }
    DecimalValue(t)
  }

  /** The value of the digits of `t`, written out for up to four of them. */
  function DecimalPrefix(t: string, n: nat): nat
    requires n <= |t| && n <= 4 && AllDigits(t)
  {
    if n == 0 then 0 else DecimalPrefix(t, n - 1) * 10 + DigitValue(t[n - 1])
  }

  lemma {:induction false} DecimalUpTo(t: string, n: nat)
    requires n == |t| <= 4 && AllDigits(t)
    ensures DecimalValue(t) == DecimalPrefix(t, n)
    decreases n
  {
    if n > 0 {
      DecimalUpTo(t[..n - 1], n - 1);
      PrefixAgrees(t, t[..n - 1], n - 1);
    }
  }

  lemma {:induction false} PrefixAgrees(t: string, u: string, n: nat)
    requires n <= |u| <= |t| <= 4 && AllDigits(t) && AllDigits(u) && u == t[..|u|]
    ensures DecimalPrefix(u, n) == DecimalPrefix(t, n)
    decreases n
  {
    if n > 0 {
      PrefixAgrees(t, u, n - 1);
    }
  }

  /** How many characters a successful reading took from `s`. */
  function Used(s: string, r: Scan): int {
    |s| - |r.rest|
  }

  /** `%Y`: exactly four digits, read as the year they denote. */
  function Year(s: string): (r: Option<Scan>)
    ensures r.Some? <==> 4 <= |s| && IsDigit(s[0]) && IsDigit(s[1]) && IsDigit(s[2]) && IsDigit(s[3]) &&
                         (|s| == 4 || !IsDigit(s[4]))
    ensures r.Some? ==> (r.value.rest == s[4..] &&
      r.value.value == DigitValue(s[0]) * 1000 + DigitValue(s[1]) * 100 + DigitValue(s[2]) * 10 + DigitValue(s[3]))
  {
    var n := DigitRun(s, 0);
    if n == 4 then Some(Scan(LeadingValue(s, 4), s[4..])) else None
  }

  /** `%m`, `%H`, `%M`, `%S` (and `%d` when it starts with a digit): one or two digits whose value lies in lo..hi. */
  function Number(s: string, lo: nat, hi: nat): (r: Option<Scan>)
    ensures r.Some? ==> 1 <= Used(s, r.value) <= 2 && r.value.rest == s[Used(s, r.value)..] && lo <= r.value.value <= hi
    ensures r.Some? ==> IsDigit(s[0]) && (Used(s, r.value) == 1 ==> r.value.value == DigitValue(s[0]))
    ensures r.Some? && Used(s, r.value) == 2 ==> IsDigit(s[1]) && r.value.value == DigitValue(s[0]) * 10 + DigitValue(s[1])
    ensures r.Some? ==> r.value.rest == [] || !IsDigit(r.value.rest[0])
  {
    var n := DigitRun(s, 0);
    if 1 <= n <= 2 && lo <= LeadingValue(s, n) <= hi then Some(Scan(LeadingValue(s, n), s[n..])) else None
  }

  /** `%d`: 1..31 in one or two digits, or a space followed by one digit 1..9. */
  function Day(s: string): (r: Option<Scan>)
    ensures r.Some? ==> 1 <= Used(s, r.value) <= 2 && r.value.rest == s[Used(s, r.value)..] && 1 <= r.value.value <= 31
    ensures r.Some? && s[0] == ' ' ==> Used(s, r.value) == 2 && IsDigit(s[1]) && s[1] != '0' && r.value.value == DigitValue(s[1])
    ensures r.Some? && s[0] != ' ' ==> IsDigit(s[0]) && (Used(s, r.value) == 1 ==> r.value.value == DigitValue(s[0]))
    ensures r.Some? && s[0] != ' ' && Used(s, r.value) == 2 ==>
      IsDigit(s[1]) && r.value.value == DigitValue(s[0]) * 10 + DigitValue(s[1])
    ensures r.Some? ==> r.value.rest == [] || !IsDigit(r.value.rest[0])
  {
    if |s| > 0 && s[0] == ' ' then
      if DigitRun(s, 1) == 1 && s[1] != '0' then Some(Scan(DigitValue(s[1]), s[2..])) else None
    else Number(s, 1, 31)
  }

  /** A literal character of the format. */
  function Literal(s: string, c: char): (r: Option<string>)
    ensures r.Some? <==> |s| > 0 && s[0] == c
    ensures r.Some? ==> r.value == s[1..]
  {
    if |s| > 0 && s[0] == c then Some(s[1..]) else None
  }

  /** A space of the format: one or more whitespace characters. */
  function Spaces(s: string): (r: Option<string>)
    ensures r.Some? <==> |s| > 0 && IsSpace(s[0])
    ensures r.Some? ==> |r.value| < |s| && r.value == s[|s| - |r.value|..]
    ensures r.Some? ==> (r.value == [] || !IsSpace(r.value[0])) && forall k :: 0 <= k < |s| - |r.value| ==> IsSpace(s[k])
  {
    var n := SpaceRun(s, 0);
    if n >= 1 then Some(s[n..]) else None
  }

  function Pow10(k: nat): nat {
    if k == 0 then 1 else 10 * Pow10(k - 1)
  }

  /** A run of k digits denotes less than ten to the k. */
  lemma {:induction false} DecimalBelowPow10(s: string)
    requires AllDigits(s)
    ensures DecimalValue(s) < Pow10(|s|)
  {
    if s != [] {
      DecimalBelowPow10(s[..|s| - 1]);
    }
  }

  lemma {:induction false} Pow10Add(a: nat, b: nat)
    ensures Pow10(a + b) == Pow10(a) * Pow10(b)
  {
    if a > 0 {
      Pow10Add(a - 1, b);
    }
  }

  /** The 1 to 6 fraction digits of `%z` in microseconds (padded on the right with zeros): less than a second. */
  function FractionMicros(digits: string): (r: nat)
    requires AllDigits(digits) && 1 <= |digits| <= 6
    ensures r < 1000000
  {
    DecimalBelowPow10(digits);
    Pow10Add(|digits|, 6 - |digits|);
    assert Pow10(6) == 1000000;
    assert (DecimalValue(digits) + 1) * Pow10(6 - |digits|) <= Pow10(|digits|) * Pow10(6 - |digits|);
    DecimalValue(digits) * Pow10(6 - |digits|)
  }

  /**
   * The optional seconds of `%z` ("" or `SS` or `SS.f` with 1 to 6 fraction
   * digits), in microseconds: less than a minute, and anything accepted
   * other than "" ends in a digit.
   */
  function ZoneSeconds(t: string): (r: Option<nat>)
    ensures r.Some? ==> r.value < 60 * 1000000
    ensures r.Some? && t != [] ==> IsDigit(t[|t| - 1])
  {
    if t == [] then Some(0)
    else if |t| < 2 || !IsDigit(t[0]) || !IsDigit(t[1]) || t[0] > '5' then None
    else
      var secs := DigitValue(t[0]) * 10 + DigitValue(t[1]);
      var frac := t[2..];
      if frac == [] then Some(secs * 1000000)
      else if frac[0] == '.' && 2 <= |frac| <= 7 && AllDigits(frac[1..]) then
        assert t[|t| - 1] == frac[1..][|frac| - 2];
        Some(secs * 1000000 + FractionMicros(frac[1..]))
      else None
  }

  /**
   * `%z` on the rest of the string: "Z", or a sign, two hour digits, an
   * optional ':', two minute digits (first digit 0..5), then optionally
   * seconds and a fraction.  When the first ':' is present the seconds
   * need one too ("Inconsistent use of :"); when it is absent a ':'
   * before the seconds makes `int()` raise.  The offset, in microseconds,
   * must lie strictly within a day for `timezone()` to accept it.
   */
  function ParseZone(z: string): (r: Option<int>)
    ensures r.Some? ==> -MicrosPerDay < r.value < MicrosPerDay
    ensures r.Some? && z != "Z" ==> |z| >= 5 && IsDigit(z[|z| - 1])
  {
    if z == "Z" then Some(0)
    else if |z| < 5 || (z[0] != '+' && z[0] != '-') || !IsDigit(z[1]) || !IsDigit(z[2]) then None
    else
      var colon := z[3] == ':';
      var mm := if colon then z[4..] else z[3..];
      if |mm| < 2 || !IsDigit(mm[0]) || !IsDigit(mm[1]) || mm[0] > '5' then None
      else
        var tail := mm[2..];
        var secPart :=
          if tail == [] then Some([])
          else if colon then (if tail[0] == ':' && |tail| > 1 then Some(tail[1..]) else None)
          else (if tail[0] == ':' then None else Some(tail));
        match secPart
        case None => None
        case Some(t) =>
          match ZoneSeconds(t)
          case None => None
          case Some(sub) =>
            var hours := DigitValue(z[1]) * 10 + DigitValue(z[2]);
            var minutes := DigitValue(mm[0]) * 10 + DigitValue(mm[1]);
            var magnitude := (hours * 3600 + minutes * 60) * 1000000 + sub;
            var offset := if z[0] == '-' then -magnitude else magnitude;
            if -MicrosPerDay < offset < MicrosPerDay then Some(offset) else None
  }

  /** The six numeric fields the two formats share, and the text after the seconds. */
  datatype Fields = Fields(year: nat, month: nat, day: nat, hour: nat, minute: nat, second: nat, rest: string)

  /** Three fields read one after the other, and the text after them. */
  datatype Triple = Triple(first: nat, second: nat, third: nat, rest: string)

  /** `%Y:%m:%d` at the start of the text. */
  function ScanDate(s: string): (r: Option<Triple>)
    ensures r.Some? ==> |r.value.rest| < |s|
  {
    var y :- Year(s);
    var c1 :- Literal(y.rest, ':');
    var mo :- Number(c1, 1, 12);
    var c2 :- Literal(mo.rest, ':');
    var d :- Day(c2);
    Some(Triple(y.value, mo.value, d.value, d.rest))
  }

  /** ` %H:%M:%S`, the space standing for any run of whitespace. */
  function ScanTime(s: string): (r: Option<Triple>)
    ensures r.Some? ==> |r.value.rest| < |s|
  {
    var w :- Spaces(s);
    ScanClock(w)
  }

  /** `%H:%M:%S`. */
  function ScanClock(s: string): (r: Option<Triple>)
    ensures r.Some? ==> |r.value.rest| < |s|
  {
    var h :- Number(s, 0, 23);
    var c3 :- Literal(h.rest, ':');
    var mi :- Number(c3, 0, 59);
    var c4 :- Literal(mi.rest, ':');
    var sec :- Number(c4, 0, 61);
    Some(Triple(h.value, mi.value, sec.value, sec.rest))
  }

  /** The `%Y:%m:%d %H:%M:%S` part both formats start with; None when a field or a separator does not match. */
  function ScanFields(s: string): (r: Option<Fields>)
    ensures r.Some? ==> |r.value.rest| < |s|
  {
    var date :- ScanDate(s);
    var time :- ScanTime(date.rest);
    Some(Fields(date.first, date.second, date.third, time.first, time.second, time.third, time.rest))
  }

  /** `datetime.strptime(s, "%Y:%m:%d %H:%M:%S")` (withZone false) or `... %S%z` (withZone true); None is ValueError. */
  function Strptime(s: string, withZone: bool): (r: Option<DateTime>)
    ensures r.Some? ==> r.value.micro == 0 && r.value.Aware() == withZone
  {
    var f :- ScanFields(s);
    var offset: Option<int> :-
      if withZone then (match ParseZone(f.rest) case Some(z) => Some(Some(z)) case None => None)
      else if f.rest == [] then Some(None)
      else None;
    var stamp := Stamp(f.year, f.month, f.day, f.hour, f.minute, f.second, 0, offset);
    if stamp.Valid() then Some(stamp) else None
  }

  /** The two `strptime` calls of `get_exif_creation_date`: plain first, the zone form on ValueError. */
  function ParseTimestamp(v: string): Option<DateTime> {
    match Strptime(v, false)
    case Some(d) => Some(d)
    case None => Strptime(v, true)
  }

  // ---------------------------------------------------------------------------
  // Properties

  /** The first tagged line decides; lines after it, tagged or not, are never looked at. */
  lemma {:induction false} FirstTaggedIgnoresLater(lines: seq<string>, later: seq<string>)
    requires FirstTagged(lines).Some?
    ensures FirstTagged(lines + later) == FirstTagged(lines)
  {
    if !Contains(lines[0], CreateDateTag) {
      assert (lines + later)[1..] == lines[1..] + later;
      FirstTaggedIgnoresLater(lines[1..], later);
    }
  }

  /** Appending output after a tagged line (a "Track Create Date", a "Media Create Date") changes nothing. */
  lemma LaterLinesIgnored(lines: seq<string>, later: seq<string>, k: nat)
    requires k < |lines| && Contains(lines[k], CreateDateTag)
    ensures LinesDate(lines + later) == LinesDate(lines)
  {
    FirstTaggedIgnoresLater(lines, later);
    var j := FirstTagged(lines).value;
    assert (lines + later)[j] == lines[j];
  }

  /** The scan finds no date exactly when no line carries the tag. */
  lemma LinesNoDateIff(lines: seq<string>)
    ensures LinesDate(lines) == NoDate <==> forall k :: 0 <= k < |lines| ==> !Contains(lines[k], CreateDateTag)
  {
    match FirstTagged(lines)
    case None =>
    case Some(k) =>
      assert LinesDate(lines) == LineDate(lines[k]) != NoDate;
      assert Contains(lines[k], CreateDateTag);
  }

  /** The result is absent exactly when the output was undecodable or no line carries the tag. */
  lemma NoDateIff(out: ExifOutput)
    ensures ExifCreationDate(out) == NoDate <==>
      (OutputLines(out).None? || forall k :: 0 <= k < |OutputLines(out).value| ==> !Contains(OutputLines(out).value[k], CreateDateTag))
  {
    if out.Decoded? {
      LinesNoDateIff(OutputLines(out).value);
    }
  }

  /** The two formats never both accept a string: the plain one must end where the zone begins. */
  lemma FormatsDisjoint(v: string)
    ensures Strptime(v, false).None? || Strptime(v, true).None?
  {
  }

  /** A timezone-aware result comes only from the second format, after the plain one failed. */
  lemma AwareOnlyAfterPlainFails(v: string)
    requires ParseTimestamp(v).Some?
    ensures ParseTimestamp(v).value.Aware() <==> Strptime(v, false).None?
  {
  }

  /** `%z` reads "+HHMM" and "+HH:MM" (and their '-' forms) as the signed offset they denote. */
  lemma ZoneRendered(negative: bool, h: nat, m: nat, colon: bool)
    requires h < 24 && m < 60
    ensures var z := [if negative then '-' else '+'] + Pad2(h) + (if colon then ":" else "") + Pad2(m);
      var magnitude := (h * 3600 + m * 60) * 1000000;
      ParseZone(z) == Some(if negative then -magnitude else magnitude)
  {
    var z := [if negative then '-' else '+'] + Pad2(h) + (if colon then ":" else "") + Pad2(m);
    var mm := if colon then z[4..] else z[3..];
    assert z[1..3] == Pad2(h) && mm == Pad2(m);
    DecimalTwo(Pad2(h));
    DecimalTwo(Pad2(m));
  }

  /** The exiftool rendering "YYYY:MM:DD HH:MM:SS" of a naive whole-second datetime. */
  function ExifText(d: DateTime): (r: string)
    ensures |r| == 19
  {
    Pad4(d.year) + ":" + Pad2(d.month) + ":" + Pad2(d.day) + " " +
    Pad2(d.hour) + ":" + Pad2(d.minute) + ":" + Pad2(d.second)
  }

  lemma {:induction false} DigitRunAt(s: string, i: nat, n: nat)
    requires i + n <= |s|
    requires forall k :: i <= k < i + n ==> IsDigit(s[k])
    requires i + n == |s| || !IsDigit(s[i + n])
    ensures DigitRun(s, i) == n
    decreases n
  {
    if n > 0 {
      DigitRunAt(s, i + 1, n - 1);
    }
  }

  lemma {:induction false} SpaceRunAt(s: string, i: nat, n: nat)
    requires i + n <= |s|
    requires forall k :: i <= k < i + n ==> IsSpace(s[k])
    requires i + n == |s| || !IsSpace(s[i + n])
    ensures SpaceRun(s, i) == n
    decreases n
  {
    if n > 0 {
      SpaceRunAt(s, i + 1, n - 1);
    }
  }

  /** Digits at the front of the text that a non-digit or the end follows: the whole run, and the number they show. */
  lemma DigitsFront(t: string, r: string)
    requires AllDigits(t) && (r == [] || !IsDigit(r[0]))
    ensures DigitRun(t + r, 0) == |t| && (t + r)[|t|..] == r
    ensures forall k :: 0 <= k < |t| ==> IsDigit((t + r)[k])
    ensures LeadingValue(t + r, |t|) == DecimalValue(t)
  {
    var s := t + r;
    forall k | 0 <= k < |t| ensures IsDigit(s[k]) {
      assert s[k] == t[k];
    }
    if r != [] {
      assert s[|t|] == r[0];
    }
    DigitRunAt(s, 0, |t|);
    assert s[..|t|] == t;
  }

  // ---------------------------------------------------------------------------
  // What the two formats accept, unpadded fields and wider spacing included

  /** A field `%m`, `%H`, `%M` or `%S` as written: one or two digits. */
  predicate FieldText(t: string) {
    1 <= |t| <= 2 && AllDigits(t)
  }

  /** `%d` as written: one or two digits, or a space and a digit 1 to 9. */
  predicate DayText(t: string) {
    FieldText(t) || (|t| == 2 && t[0] == ' ' && IsDigit(t[1]) && t[1] != '0')
  }

  function DayTextValue(t: string): nat
    requires DayText(t)
  {
    if t[0] == ' ' then DigitValue(t[1]) else DecimalValue(t)
  }

  /** A timestamp written as year, month, day, spacing, hour, minute and second. */
  function Timestamp(y: string, mo: string, d: string, w: string, h: string, mi: string, sec: string): string {
    y + ":" + mo + ":" + d + w + h + ":" + mi + ":" + sec
  }

  /** The fields of a timestamp, when each lies in the range its directive accepts. */
  predicate WellWritten(y: string, mo: string, d: string, w: string, h: string, mi: string, sec: string) {
    && |y| == 4 && AllDigits(y)
    && FieldText(mo) && 1 <= DecimalValue(mo) <= 12
    && DayText(d) && 1 <= DayTextValue(d) <= 31
    && |w| >= 1 && AllSpace(w)
    && FieldText(h) && DecimalValue(h) <= 23
    && FieldText(mi) && DecimalValue(mi) <= 59
    && FieldText(sec) && DecimalValue(sec) <= 61
  }

  /** `%Y` reads four digits that a non-digit or the end follows as the number they show. */
  lemma YearReads(t: string, r: string)
    requires |t| == 4 && AllDigits(t) && (r == [] || !IsDigit(r[0]))
    ensures Year(t + r) == Some(Scan(DecimalValue(t), r))
  {
    DigitsFront(t, r);
  }

  /** A numeric directive reads one or two digits in its range, padded or not, that a non-digit or the end follows. */
  lemma NumberReads(t: string, r: string, lo: nat, hi: nat)
    requires FieldText(t) && lo <= DecimalValue(t) <= hi && (r == [] || !IsDigit(r[0]))
    ensures Number(t + r, lo, hi) == Some(Scan(DecimalValue(t), r))
  {
    DigitsFront(t, r);
  }

  /** `%d` reads a written day, " 5" included, that a non-digit or the end follows. */
  lemma DayReads(t: string, r: string)
    requires DayText(t) && 1 <= DayTextValue(t) <= 31 && (r == [] || !IsDigit(r[0]))
    ensures Day(t + r) == Some(Scan(DayTextValue(t), r))
  {
    var s := t + r;
    if t[0] == ' ' {
      assert s[0] == ' ' && s[1] == t[1] && s[2..] == r;
      if r != [] {
        assert s[2] == r[0];
      }
      DigitRunAt(s, 1, 1);
    } else {
      assert s[0] == t[0];
      NumberReads(t, r, 1, 31);
    }
  }

  /** A space of the format takes a whole run of whitespace, however long. */
  lemma SpacesRead(w: string, r: string)
    requires |w| >= 1 && AllSpace(w) && (r == [] || !IsSpace(r[0]))
    ensures Spaces(w + r) == Some(r)
  {
    var s := w + r;
    forall k | 0 <= k < |w| ensures IsSpace(s[k]) {
      assert s[k] == w[k];
    }
    if r != [] {
      assert s[|w|] == r[0];
    }
    SpaceRunAt(s, 0, |w|);
    assert s[|w|..] == r;
  }

  /** `%Y:%m:%d` reads a well-written date at the start of the text and leaves what follows it. */
  lemma ScanDateReads(y: string, mo: string, d: string, r: string)
    requires |y| == 4 && AllDigits(y)
    requires FieldText(mo) && 1 <= DecimalValue(mo) <= 12
    requires DayText(d) && 1 <= DayTextValue(d) <= 31
    requires r == [] || !IsDigit(r[0])
    ensures ScanDate(y + (":" + (mo + (":" + (d + r))))) == Some(Triple(DecimalValue(y), DecimalValue(mo), DayTextValue(d), r))
  {
    YearReads(y, ":" + (mo + (":" + (d + r))));
    NumberReads(mo, ":" + (d + r), 1, 12);
    DayReads(d, r);
  }

  /** `%H:%M:%S` reads a well-written time and leaves what follows it. */
  lemma ScanClockReads(h: string, mi: string, sec: string, r: string)
    requires FieldText(h) && DecimalValue(h) <= 23
    requires FieldText(mi) && DecimalValue(mi) <= 59
    requires FieldText(sec) && DecimalValue(sec) <= 61
    requires r == [] || !IsDigit(r[0])
    ensures ScanClock(h + (":" + (mi + (":" + (sec + r))))) == Some(Triple(DecimalValue(h), DecimalValue(mi), DecimalValue(sec), r))
  {
    NumberReads(h, ":" + (mi + (":" + (sec + r))), 0, 23);
    NumberReads(mi, ":" + (sec + r), 0, 59);
    NumberReads(sec, r, 0, 61);
  }

  /** ` %H:%M:%S` reads a well-written time after any run of whitespace. */
  lemma ScanTimeReads(w: string, h: string, mi: string, sec: string, r: string)
    requires |w| >= 1 && AllSpace(w)
    requires FieldText(h) && DecimalValue(h) <= 23
    requires FieldText(mi) && DecimalValue(mi) <= 59
    requires FieldText(sec) && DecimalValue(sec) <= 61
    requires r == [] || !IsDigit(r[0])
    ensures ScanTime(w + (h + (":" + (mi + (":" + (sec + r)))))) == Some(Triple(DecimalValue(h), DecimalValue(mi), DecimalValue(sec), r))
  {
    SpacesRead(w, h + (":" + (mi + (":" + (sec + r)))));
    ScanClockReads(h, mi, sec, r);
  }

  /**
   * The part both formats share reads every well-written timestamp, padded
   * or not, with any run of whitespace between date and time, as the
   * fields it shows, and leaves the text after the seconds.
   */
  lemma ScanFieldsReads(y: string, mo: string, d: string, w: string, h: string, mi: string, sec: string, rest: string)
    requires WellWritten(y, mo, d, w, h, mi, sec)
    requires rest == [] || !IsDigit(rest[0])
    ensures ScanFields(Timestamp(y, mo, d, w, h, mi, sec) + rest) ==
      Some(Fields(DecimalValue(y), DecimalValue(mo), DayTextValue(d), DecimalValue(h), DecimalValue(mi), DecimalValue(sec), rest))
  {
    var time := w + (h + (":" + (mi + (":" + (sec + rest)))));
    TimestampThen(y, mo, d, w, h, mi, sec, rest);
    ScanDateReads(y, mo, d, time);
    ScanTimeReads(w, h, mi, sec, rest);
  }

  /** The timestamp followed by more text, as the scanners meet it: one piece after the other. */
  lemma TimestampThen(y: string, mo: string, d: string, w: string, h: string, mi: string, sec: string, rest: string)
    ensures Timestamp(y, mo, d, w, h, mi, sec) + rest ==
      y + (":" + (mo + (":" + (d + (w + (h + (":" + (mi + (":" + (sec + rest))))))))))
  {
  }

  /** The plain format parses a well-written timestamp to the naive datetime of its fields exactly when they make a valid datetime. */
  lemma StrptimePlainReads(y: string, mo: string, d: string, w: string, h: string, mi: string, sec: string)
    requires WellWritten(y, mo, d, w, h, mi, sec)
    ensures var naive := Stamp(DecimalValue(y), DecimalValue(mo), DayTextValue(d), DecimalValue(h), DecimalValue(mi), DecimalValue(sec), 0, None);
      Strptime(Timestamp(y, mo, d, w, h, mi, sec), false) == (if naive.Valid() then Some(naive) else None)
  {
    var t := Timestamp(y, mo, d, w, h, mi, sec);
    ScanFieldsReads(y, mo, d, w, h, mi, sec, []);
    assert t + [] == t;
  }

  /** A well-written timestamp followed by text that is not a digit: the plain format refuses it as unconverted data. */
  lemma StrptimePlainRefusesSuffix(y: string, mo: string, d: string, w: string, h: string, mi: string, sec: string, z: string)
    requires WellWritten(y, mo, d, w, h, mi, sec)
    requires z != [] && !IsDigit(z[0])
    ensures Strptime(Timestamp(y, mo, d, w, h, mi, sec) + z, false) == None
  {
    ScanFieldsReads(y, mo, d, w, h, mi, sec, z);
  }

  /**
   * A well-written timestamp followed by a zone: the `%z` format parses it
   * to the datetime of its fields with the offset the zone denotes, when
   * both are valid.
   */
  lemma StrptimeZoneReads(y: string, mo: string, d: string, w: string, h: string, mi: string, sec: string, z: string)
    requires WellWritten(y, mo, d, w, h, mi, sec)
    requires z != [] && !IsDigit(z[0])
    ensures var naive := Stamp(DecimalValue(y), DecimalValue(mo), DayTextValue(d), DecimalValue(h), DecimalValue(mi), DecimalValue(sec), 0, None);
      Strptime(Timestamp(y, mo, d, w, h, mi, sec) + z, true) == (if ParseZone(z).Some? && naive.Valid() then Some(naive.(offset := ParseZone(z))) else None)
  {
    ScanFieldsReads(y, mo, d, w, h, mi, sec, z);
  }

  /** Where each field of ExifText sits. */
  lemma ExifTextLayout(d: DateTime)
    ensures var s := ExifText(d);
      && s[0..4] == Pad4(d.year) && s[5..7] == Pad2(d.month) && s[8..10] == Pad2(d.day)
      && s[11..13] == Pad2(d.hour) && s[14..16] == Pad2(d.minute) && s[17..19] == Pad2(d.second)
      && s[4] == ':' && s[7] == ':' && s[10] == ' ' && s[13] == ':' && s[16] == ':'
  {
    var s := ExifText(d);
    var a := Pad4(d.year) + ":" + Pad2(d.month) + ":";
    var b := Pad2(d.day) + " " + Pad2(d.hour) + ":";
    var c := Pad2(d.minute) + ":" + Pad2(d.second);
    assert s == a + b + c;
    assert s[0..4] == a[0..4] && s[5..7] == a[5..7];
    assert s[8..10] == b[0..2] && s[11..13] == b[3..5];
    assert s[14..16] == c[0..2] && s[17..19] == c[3..5];
  }

  /** Parsing the exiftool rendering of a naive datetime gives that datetime back. */
  lemma ParseRendered(d: DateTime)
    requires !d.Aware() && d.micro == 0
    ensures Strptime(ExifText(d), false) == Some(d)
    ensures ParseTimestamp(ExifText(d)) == Some(d)
  {
    RenderedWellWritten(d);
    StrptimePlainReads(Pad4(d.year), Pad2(d.month), Pad2(d.day), " ", Pad2(d.hour), Pad2(d.minute), Pad2(d.second));
  }

  /** ExifText is a timestamp whose fields are the zero-padded fields of the datetime, one space apart. */
  lemma RenderedWellWritten(d: DateTime)
    ensures ExifText(d) == Timestamp(Pad4(d.year), Pad2(d.month), Pad2(d.day), " ", Pad2(d.hour), Pad2(d.minute), Pad2(d.second))
    ensures WellWritten(Pad4(d.year), Pad2(d.month), Pad2(d.day), " ", Pad2(d.hour), Pad2(d.minute), Pad2(d.second))
    ensures DayTextValue(Pad2(d.day)) == d.day
  {
    assert Pad2(d.day)[0] != ' ' by { assert IsDigit(Pad2(d.day)[0]); }
  }

  /**
   * The rendering followed by a "+HH:MM" zone fails the plain format and
   * parses with the `%z` one to the same wall-clock time, aware, with the
   * offset the zone denotes.
   */
  lemma ZoneSuffixedParses(d: DateTime, h: nat, m: nat)
    requires !d.Aware() && d.micro == 0 && h < 24 && m < 60
    ensures var v := ExifText(d) + ZoneText(h, m);
      && Strptime(v, false) == None
      && ParseTimestamp(v) == Some(d.(offset := Some((h * 3600 + m * 60) * 1000000)))
  {
    var z := ZoneText(h, m);
    ZoneRendered(false, h, m, true);
    RenderedWellWritten(d);
    StrptimePlainRefusesSuffix(Pad4(d.year), Pad2(d.month), Pad2(d.day), " ", Pad2(d.hour), Pad2(d.minute), Pad2(d.second), z);
    StrptimeZoneReads(Pad4(d.year), Pad2(d.month), Pad2(d.day), " ", Pad2(d.hour), Pad2(d.minute), Pad2(d.second), z);
  }

  /** A zone with a lone trailing ':' is unconverted data for `%z` too, so neither format accepts the timestamp. */
  lemma ZoneTrailingColonRefused(d: DateTime, h: nat, m: nat)
    requires !d.Aware() && d.micro == 0 && h < 24 && m < 60
    ensures ParseTimestamp(ExifText(d) + (ZoneText(h, m) + ":")) == None
  {
    var z := ZoneText(h, m) + ":";
    RenderedWellWritten(d);
    StrptimePlainRefusesSuffix(Pad4(d.year), Pad2(d.month), Pad2(d.day), " ", Pad2(d.hour), Pad2(d.minute), Pad2(d.second), z);
    StrptimeZoneReads(Pad4(d.year), Pad2(d.month), Pad2(d.day), " ", Pad2(d.hour), Pad2(d.minute), Pad2(d.second), z);
  }

  /** The rendering, followed by any text without spaces, holds no " : ": its only space is followed by a digit. */
  lemma NoSeparatorInExifText(d: DateTime, z: string)
    requires ' ' !in z
    ensures !Contains(ExifText(d) + z, ValueSeparator)
  {
    var e := ExifText(d);
    var s := e + z;
    ExifTextLayout(d);
    forall k: nat | k + 3 <= |s| ensures !OccursAt(s, ValueSeparator, k) {
      assert s[k..k + 3][0] == s[k] && s[k..k + 3][1] == s[k + 1];
      if k >= 19 {
        assert s[k] == z[k - 19];
      } else {
        assert s[k] == e[k];
        if k < 4 { assert e[k] == e[0..4][k]; }
        else if 4 < k < 7 { assert e[k] == e[5..7][k - 5]; }
        else if 7 < k < 10 { assert e[k] == e[8..10][k - 8]; }
        else if k == 10 { assert s[11] == e[11] == e[11..13][0]; }
        else if 10 < k < 13 { assert e[k] == e[11..13][k - 11]; }
        else if 13 < k < 16 { assert e[k] == e[14..16][k - 14]; }
        else if 16 < k { assert e[k] == e[17..19][k - 17]; }
      }
    }
  }

  /** The rendering is one line: it holds no newline. */
  lemma ExifTextOneLine(d: DateTime)
    ensures '\n' !in ExifText(d)
  {
    RenderedWellWritten(d);
  }

  /** The zone suffix "+HH:MM" exiftool appends to a Create Date that carries an offset. */
  function ZoneText(h: nat, m: nat): (z: string)
    requires h < 100 && m < 100
    ensures |z| == 6 && ' ' !in z && '\n' !in z && IsDigit(z[5])
  {
    "+" + Pad2(h) + ":" + Pad2(m)
  }

  /** An exiftool line "caption : value" whose caption holds no ':' splits into exactly the caption and the value. */
  lemma SplitLabelValue(caption: string, value: string)
    requires ':' !in caption && !Contains(value, ValueSeparator)
    ensures Split(caption + ValueSeparator + value, ValueSeparator) == [caption, value]
  {
    var s := caption + ValueSeparator + value;
    assert OccursAt(s, ValueSeparator, |caption|) by { assert s[|caption|..|caption| + 3] == ValueSeparator; }
    forall k | 0 <= k < |caption| ensures !OccursAt(s, ValueSeparator, k) {
      if k + 3 <= |s| {
        assert s[k..k + 3][1] == s[k + 1];
      }
      if k + 1 < |caption| {
        assert caption[k + 1] == s[k + 1];
      } else {
        assert s[k + 1] == ' ';
      }
    }
    var j := |caption|;
    assert Find(s, ValueSeparator) == Some(j);
    assert s[..j] == caption && s[j + 3..] == value;
  }

  /** The first tagged line "caption : YYYY:MM:DD HH:MM:SS" yields exactly the datetime it shows. */
  lemma TaggedLineDate(caption: string, d: DateTime)
    requires ':' !in caption && !d.Aware() && d.micro == 0
    ensures LineDate(caption + ValueSeparator + ExifText(d)) == Found(d)
  {
    var t := ExifText(d);
    NoSeparatorInExifText(d, []);
    assert t + [] == t;
    SplitLabelValue(caption, t);
    ExifTextLayout(d);
    assert !IsSpace(t[0]) by { assert t[0] == t[0..4][0]; }
    assert !IsSpace(t[18]) by { assert t[18] == t[17..19][1]; }
    StripPadded([], t, []);
    assert [] + t + [] == t;
    ParseRendered(d);
  }

  /** The first tagged line "caption : YYYY:MM:DD HH:MM:SS+HH:MM" yields the aware datetime it shows. */
  lemma TaggedZoneLineDate(caption: string, d: DateTime, h: nat, m: nat)
    requires ':' !in caption && !d.Aware() && d.micro == 0 && h < 24 && m < 60
    ensures LineDate(caption + ValueSeparator + (ExifText(d) + ZoneText(h, m))) ==
      Found(d.(offset := Some((h * 3600 + m * 60) * 1000000)))
  {
    var z := ZoneText(h, m);
    var v := ExifText(d) + z;
    NoSeparatorInExifText(d, z);
    SplitLabelValue(caption, v);
    ExifTextLayout(d);
    assert !IsSpace(v[0]) by { assert v[0] == ExifText(d)[0..4][0]; }
    assert !IsSpace(v[|v| - 1]) by { assert v[|v| - 1] == z[5]; }
    StripPadded([], v, []);
    assert [] + v + [] == v;
    ZoneSuffixedParses(d, h, m);
  }

  /**
   * Output whose one line is a Create Date with a "+HH:MM" zone makes
   * `get_exif_creation_date` return that aware datetime.
   */
  lemma ZoneSuffixedOutputDate(caption: string, d: DateTime, h: nat, m: nat)
    requires Contains(caption, CreateDateTag) && ':' !in caption && '\n' !in caption
    requires !d.Aware() && d.micro == 0 && h < 24 && m < 60
    ensures ExifCreationDate(Decoded(caption + ValueSeparator + (ExifText(d) + ZoneText(h, m)))) ==
      Found(d.(offset := Some((h * 3600 + m * 60) * 1000000)))
  {
    var line := caption + ValueSeparator + (ExifText(d) + ZoneText(h, m));
    ExifTextOneLine(d);
    assert '\n' !in line;
    CharAbsent(line, '\n');
    SplitFree(line, "\n");
    ContainsInLonger(caption, ValueSeparator + (ExifText(d) + ZoneText(h, m)), CreateDateTag);
    assert line == caption + (ValueSeparator + (ExifText(d) + ZoneText(h, m)));
    TaggedZoneLineDate(caption, d, h, m);
  }

  /** 10 October 2010 at 10:10:10 is shown as "2010:10:10 10:10:10". */
  lemma ExifText2010(d: DateTime)
    requires d.year == 2010 && d.month == 10 && d.day == 10 && d.hour == 10 && d.minute == 10 && d.second == 10
    ensures ExifText(d) == "2010:10:10 10:10:10"
  {
    Pad2010();
    ExifTextFields(Pad4(2010), Pad2(10));
  }

  lemma ExifTextFields(y: string, t: string)
    requires y == "2010" && t == "10"
    ensures y + ":" + t + ":" + t + " " + t + ":" + t + ":" + t == "2010:10:10 10:10:10"
  {
  }

  /** The line exiftool prints for a photo taken on 10 October 2010 at 10:10:10 yields that naive datetime. */
  lemma CreateDateLineExample(line: string, d: DateTime)
    requires line == "Create Date                     : 2010:10:10 10:10:10"
    requires d == Stamp(2010, 10, 10, 10, 10, 10, 0, None)
    ensures LineDate(line) == Found(d)
  {
    ExampleLineShape(line, d);
    TaggedLineDate(ExampleCaption, d);
  }

  const ExampleCaption: string := "Create Date                    "

  lemma ExampleLineShape(line: string, d: DateTime)
    requires line == "Create Date                     : 2010:10:10 10:10:10"
    requires d.year == 2010 && d.month == 10 && d.day == 10 && d.hour == 10 && d.minute == 10 && d.second == 10
    ensures line == ExampleCaption + ValueSeparator + ExifText(d)
  {
    ExifText2010(d);
  }
}
