/** The pure helpers of internal/utils/utils.go.

    `ParseFeedDate` turns an item's raw publication date into the
    `YYYY-MM-DD 00:00:00` text stored in `feed_items.published_at`. It accepts
    Go's `time.RFC1123Z` layout, `Mon, 02 Jan 2006 15:04:05 -0700`: the date-time
    syntax of section 5 of RFC 822 as amended by section 5.2.14 of RFC 1123, with a
    numeric zone. The parser below follows the steps `time.Parse` takes for that
    layout; the wall clock is the parameter `today`.

    `ReadIDParam` reads the `{id}` URL parameter with `strconv.ParseInt(_, 10, 64)`. */
module Utils {
  import opened Common
  import opened Text
  import opened Digits

  // ---------------------------------------------------------------- calendar

  datatype Date = Date(year: int, month: int, day: int)

  /** Go's `isLeap`. */
  predicate IsLeap(year: int) {
    year % 4 == 0 && (year % 100 != 0 || year % 400 == 0)
  }

  /** Go's `daysIn` for months 1..12. */
  function DaysIn(month: int, year: int): int {
    if month == 2 then (if IsLeap(year) then 29 else 28)
    else if month == 4 || month == 6 || month == 9 || month == 11 then 30
    else 31
  }

  /** A calendar date with a year the four-digit layout can hold. */
  predicate ValidDate(d: Date) {
    && 0 <= d.year <= 9999
    && 1 <= d.month <= 12
    && 1 <= d.day <= DaysIn(d.month, d.year)
  }

  /** Chronological order of calendar dates. */
  predicate DateLessEq(a: Date, b: Date) {
    || a.year < b.year
    || (a.year == b.year && a.month < b.month)
    || (a.year == b.year && a.month == b.month && a.day <= b.day)
  }

  /** A numeric zone offset as written: sign, hours and minutes. */
  datatype Zone = Zone(east: bool, hours: nat, minutes: nat)

  /** What `time.Parse(time.RFC1123Z, _)` recovers from its input. The weekday
      is checked but not kept; fractional seconds are skipped. */
  datatype Stamp = Stamp(date: Date, hour: nat, minute: nat, second: nat, zone: Zone)

  predicate ValidStamp(t: Stamp) {
    && ValidDate(t.date)
    && t.hour < 24 && t.minute < 60 && t.second < 60
    && t.zone.hours <= 24 && t.zone.minutes <= 60
  }

  // ------------------------------------------------- the layout's elements

  const ShortDayNames: seq<string> := ["Sun", "Mon", "Tue", "Wed", "Thu", "Fri", "Sat"]
  const ShortMonthNames: seq<string> :=
    ["Jan", "Feb", "Mar", "Apr", "May", "Jun", "Jul", "Aug", "Sep", "Oct", "Nov", "Dec"]

  /** ASCII lower-casing, as Go's `match` does with `| ('a' - 'A')`. */
  function Lower(c: char): char {
    if 'A' <= c <= 'Z' then (c as int + 32) as char else c
  }

  /** `s` begins with `name`, ignoring ASCII case (Go's `match`). */
  predicate StartsWithName(s: string, name: string) {
    |s| >= |name| && forall i :: 0 <= i < |name| ==> Lower(s[i]) == Lower(name[i])
  }

  /** Go's `lookup`: the first name of `tab` (from index `k` on) that `s`
      starts with, and the text after it. */
  function LookupFrom(tab: seq<string>, s: string, k: nat): (r: Option<(nat, string)>)
    requires k <= |tab|
    decreases |tab| - k
    ensures r.None? <==> forall j :: k <= j < |tab| ==> !StartsWithName(s, tab[j])
    ensures r.Some? ==> && k <= r.value.0 < |tab|
                        && StartsWithName(s, tab[r.value.0])
                        && r.value.1 == s[|tab[r.value.0]|..]
                        && forall j :: k <= j < r.value.0 ==> !StartsWithName(s, tab[j])
  {
    if k == |tab| then None
    else if StartsWithName(s, tab[k]) then Some((k, s[|tab[k]|..]))
    else LookupFrom(tab, s, k + 1)
  }

  function Lookup(tab: seq<string>, s: string): Option<(nat, string)> {
    LookupFrom(tab, s, 0)
  }

  /** Go's `cutspace`: drops leading ASCII spaces. */
  function CutSpace(s: string): (r: string)
    ensures r == [] || r[0] != ' '
  {
    if s != [] && s[0] == ' ' then CutSpace(s[1..]) else s
  }

  /** A space of the layout: the input must be exhausted or start with a
      space, and then all its leading spaces are skipped. */
  function SkipSpace(s: string): Option<string> {
    if s != [] && s[0] != ' ' then None else Some(CutSpace(s))
  }

  /** A literal character of the layout. */
  function Expect(s: string, c: char): Option<string> {
    if s != [] && s[0] == c then Some(s[1..]) else None
  }

  /** Go's `getnum`: two digits, or (when not `fixed`) a single digit. */
  function GetNum(s: string, fixed: bool): (r: Option<(nat, string)>)
    ensures r.Some? ==> r.value.0 < 100
  {
    if |s| == 0 || !IsDigit(s[0]) then None
    else if |s| == 1 || !IsDigit(s[1]) then
      (if fixed then None else Some((DigitValue(s[0]), s[1..])))
    else Some((10 * DigitValue(s[0]) + DigitValue(s[1]), s[2..]))
  }

  /** The `2006` element: exactly four digits. */
  function Year(s: string): (r: Option<(nat, string)>)
    ensures r.Some? ==> r.value.0 <= 9999
  {
    if |s| < 4 || !IsDigit(s[0]) then None
    else if AllDigits(s[..4]) then Some((Value(s[..4]), s[4..]))
    else None
  }

  function DropDigits(s: string): string {
    if s != [] && IsDigit(s[0]) then DropDigits(s[1..]) else s
  }

  /** A fraction of a second that the layout does not mention (`.123` or
      `,123`) is accepted after the seconds and ignored. */
  function SkipFraction(s: string): string {
    if |s| >= 2 && (s[0] == '.' || s[0] == ',') && IsDigit(s[1]) then DropDigits(s[2..]) else s
  }

  /** The `-0700` element: a sign, two hour digits (at most 24), two minute
      digits (at most 60). */
  function ZoneOffset(s: string): (r: Option<(Zone, string)>)
    ensures r.Some? ==> r.value.0.hours <= 24 && r.value.0.minutes <= 60
  {
    if |s| < 5 then None
    else
      var hh :- GetNum(s[1..3], true);
      var mm :- GetNum(s[3..5], true);
      if hh.0 > 24 || mm.0 > 60 then None
      else if s[0] == '+' then Some((Zone(true, hh.0, mm.0), s[5..]))
      else if s[0] == '-' then Some((Zone(false, hh.0, mm.0), s[5..]))
      else None
  }

  /** The ` Jan 2006` part: month number and year, and the rest. */
  function ParseMonthYear(s: string): (r: Option<((nat, nat), string)>)
    ensures r.Some? ==> 1 <= r.value.0.0 <= 12 && r.value.0.1 <= 9999
  {
    var s1 :- SkipSpace(s);
    var month :- Lookup(ShortMonthNames, s1);
    var s2 :- SkipSpace(month.1);
    var year :- Year(s2);
    Some(((month.0 + 1, year.0), year.1))
  }

  /** The `02 Jan 2006` part: day, month number and year, and the rest. */
  function ParseDayMonthYear(s: string): (r: Option<((nat, nat, nat), string)>)
    ensures r.Some? ==> 1 <= r.value.0.1 <= 12 && r.value.0.2 <= 9999
  {
    var day :- GetNum(s, true);
    var monthYear :- ParseMonthYear(day.1);
    Some(((day.0, monthYear.0.0, monthYear.0.1), monthYear.1))
  }

  /** The `15:04:05` part, each field range-checked as it is read, then an
      unmentioned fraction of a second skipped. */
  function ParseTimeOfDay(s: string): (r: Option<((nat, nat, nat), string)>)
    ensures r.Some? ==> r.value.0.0 < 24 && r.value.0.1 < 60 && r.value.0.2 < 60
  {
    var hour :- Field(s, false, 24);
    var minute :- ColonField(hour.1, 60);
    var second :- ColonField(minute.1, 60);
    Some(((hour.0, minute.0, second.0), SkipFraction(second.1)))
  }

  /** One numeric element, rejected when it reaches `bound`. */
  function Field(s: string, fixed: bool, bound: nat): (r: Option<(nat, string)>)
    ensures r.Some? ==> r.value.0 < bound
  {
    var n :- GetNum(s, fixed);
    if n.0 >= bound then None else Some(n)
  }

  /** A `:` and then a two-digit element below `bound`. */
  function ColonField(s: string, bound: nat): (r: Option<(nat, string)>)
    ensures r.Some? ==> r.value.0 < bound
  {
    var s1 :- Expect(s, ':');
    Field(s1, true, bound)
  }

  /** The ` -0700` part, which must end the input. */
  function ParseZoneTail(s: string): (r: Option<Zone>)
    ensures r.Some? ==> r.value.hours <= 24 && r.value.minutes <= 60
  {
    var s1 :- SkipSpace(s);
    var zone :- ZoneOffset(s1);
    if zone.1 != [] then None else Some(zone.0)
  }

  /** `time.Parse(time.RFC1123Z, s)`: every element in layout order, no text
      left over, and finally the day checked against the month and year. */
  function ParseRFC1123Z(s: string): (r: Option<Stamp>)
    ensures r.Some? ==> ValidStamp(r.value)
  {
    var weekday :- Lookup(ShortDayNames, s);
    var s1 :- Expect(weekday.1, ',');
    var s2 :- SkipSpace(s1);
    var dmy :- ParseDayMonthYear(s2);
    var s3 :- SkipSpace(dmy.1);
    var hms :- ParseTimeOfDay(s3);
    var zone :- ParseZoneTail(hms.1);
    var date := Date(dmy.0.2, dmy.0.1, dmy.0.0);
    if date.day < 1 || date.day > DaysIn(date.month, date.year) then None
    else Some(Stamp(date, hms.0.0, hms.0.1, hms.0.2, zone))
  }

  /** The canonical text of a stamp in the RFC1123Z layout (the inverse of the
      parser, as `time.Format(time.RFC1123Z)` writes it). */
  function Render(weekday: nat, t: Stamp): string
    requires weekday < 7 && ValidStamp(t)
  {
    ShortDayNames[weekday] + ("," + (" " + RenderDate(t.date, " " + RenderClock(t, " " + RenderZone(t.zone)))))
  }

  /** `02 Jan 2006` followed by `rest`. */
  function RenderDate(d: Date, rest: string): string
    requires ValidDate(d)
  {
    Fixed(d.day, 2) + RenderMonthYear(d.month, d.year, rest)
  }

  /** ` Jan 2006` followed by `rest`. */
  function RenderMonthYear(month: nat, year: nat, rest: string): string
    requires 1 <= month <= 12
  {
    " " + (ShortMonthNames[month - 1] + (" " + (Fixed(year, 4) + rest)))
  }

  /** `15:04:05` followed by `rest`. */
  function RenderClock(t: Stamp, rest: string): string {
    Fixed(t.hour, 2) + (":" + (Fixed(t.minute, 2) + (":" + (Fixed(t.second, 2) + rest))))
  }

  function RenderZone(z: Zone): string {
    [if z.east then '+' else '-'] + (Fixed(z.hours, 2) + Fixed(z.minutes, 2))
  }

  // ------------------------------------------------------ ParseFeedDate

  /** `t.Format("2006-01-02 00:00:00")`: the date fields zero-padded, the time
      replaced by the literal `00:00:00`. */
  function FormatDate(d: Date): string {
    PadInt(d.year, 4) + ("-" + (PadInt(d.month, 2) + ("-" + (PadInt(d.day, 2) + " 00:00:00"))))
  }

  /** `ParseFeedDate` with the wall clock's local date as `today`: the input's
      own date when it parses, today's date otherwise. It never fails. */
  function ParseFeedDate(dateStr: string, today: Date): (r: string)
    ensures ParseRFC1123Z(dateStr).None? ==> r == FormatDate(today)
    ensures ParseRFC1123Z(dateStr).Some? ==> r == FormatDate(ParseRFC1123Z(dateStr).value.date)
  {
    if dateStr == "" then FormatDate(today)
    else match ParseRFC1123Z(dateStr)
      case None => FormatDate(today)
      case Some(t) => FormatDate(t.date)
  }

  /** The fixed shape `DDDD-DD-DD 00:00:00`. */
  predicate DateShaped(r: string) {
    && |r| == 19
    && AllDigits(r[..4]) && r[4] == '-'
    && AllDigits(r[5..7]) && r[7] == '-'
    && AllDigits(r[8..10]) && r[10..] == " 00:00:00"
  }

  /** Four-digit years need no sign or extra digits. */
  lemma FormatValidDate(d: Date)
    requires ValidDate(d)
    ensures FormatDate(d) == Fixed(d.year, 4) + ("-" + (Fixed(d.month, 2) + ("-" + (Fixed(d.day, 2) + " 00:00:00"))))
  {
    assert Pow10(2) == 100 && Pow10(4) == 10000;
    PadIntFixed(d.year, 4);
    PadIntFixed(d.month, 2);
    PadIntFixed(d.day, 2);
  }

  lemma FormatDateShape(d: Date)
    requires ValidDate(d)
    ensures DateShaped(FormatDate(d))
  {
    FormatValidDate(d);
    DigitsShaped(Fixed(d.year, 4), Fixed(d.month, 2), Fixed(d.day, 2));
  }

  /** Four digits, two digits and two digits joined by dashes, with the
      literal midnight after them, have the date shape. */
  lemma DigitsShaped(y: string, m: string, dd: string)
    requires |y| == 4 && |m| == 2 && |dd| == 2
    requires AllDigits(y) && AllDigits(m) && AllDigits(dd)
    ensures DateShaped(y + ("-" + (m + ("-" + (dd + " 00:00:00")))))
  {
    var tail := dd + " 00:00:00";
    var mid := m + ("-" + tail);
    var r := y + ("-" + mid);
    assert r[..4] == y;
    assert r[5..] == mid;
    assert mid[..2] == m && mid[3..] == tail;
    assert r[5..7] == m;
    assert r[8..] == tail;
    assert r[8..10] == dd;
  }

  /** Every output of `ParseFeedDate` has the shape `DDDD-DD-DD 00:00:00`,
      whichever branch produced it, provided the clock's date is a real date. */
  lemma ParseFeedDateShape(dateStr: string, today: Date)
    requires ValidDate(today)
    ensures DateShaped(ParseFeedDate(dateStr, today))
  {
    match ParseRFC1123Z(dateStr)
    case None => FormatDateShape(today);
    case Some(t) => FormatDateShape(t.date);
  }

  /** Two strings that start with fixed-width renderings of `x` and `y`
      compare by the numbers first and by what follows on a tie. */
  lemma FieldThen(x: nat, y: nat, w: nat, s: string, t: string)
    requires x < Pow10(w) && y < Pow10(w)
    ensures LessEq(Fixed(x, w) + s, Fixed(y, w) + t) <==> x < y || (x == y && LessEq(s, t))
  {
    LessEqConcat(Fixed(x, w), Fixed(y, w), s, t);
    FixedOrder(x, y, w);
    FixedRoundTrip(x, w);
    FixedRoundTrip(y, w);
  }

  /** A shared separator does not change the order. */
  lemma DashThen(s: string, t: string)
    ensures LessEq("-" + s, "-" + t) <==> LessEq(s, t)
  {
    LessEqConcat("-", "-", s, t);
  }

  /** Formatted dates sort as strings exactly as the calendar dates do. */
  lemma FormatDateOrder(a: Date, b: Date)
    requires ValidDate(a) && ValidDate(b)
    ensures DateLessEq(a, b) <==> LessEq(FormatDate(a), FormatDate(b))
  {
    FormatValidDate(a);
    FormatValidDate(b);
    assert Pow10(2) == 100 && Pow10(4) == 10000;
    var dayA := Fixed(a.day, 2) + " 00:00:00";
    var dayB := Fixed(b.day, 2) + " 00:00:00";
    LessEqReflexive(" 00:00:00");
    FieldThen(a.day, b.day, 2, " 00:00:00", " 00:00:00");
    DashThen(dayA, dayB);
    var monthA := Fixed(a.month, 2) + ("-" + dayA);
    var monthB := Fixed(b.month, 2) + ("-" + dayB);
    FieldThen(a.month, b.month, 2, "-" + dayA, "-" + dayB);
    DashThen(monthA, monthB);
    FieldThen(a.year, b.year, 4, "-" + monthA, "-" + monthB);
  }

  /** For two dates that both parse, the stored strings compare as the written
      calendar dates do. Written dates, not instants: the offset is dropped, so
      two timestamps with different offsets may sort against their instants. */
  lemma ParseFeedDateOrder(a: string, b: string, today: Date)
    requires ParseRFC1123Z(a).Some? && ParseRFC1123Z(b).Some?
    ensures DateLessEq(ParseRFC1123Z(a).value.date, ParseRFC1123Z(b).value.date)
            <==> LessEq(ParseFeedDate(a, today), ParseFeedDate(b, today))
  {
    FormatDateOrder(ParseRFC1123Z(a).value.date, ParseRFC1123Z(b).value.date);
  }

  // ----------------------------------------- parsing what Render writes

  lemma NotStartsWithName(a: string, b: string, i: nat)
    requires i < |b| <= |a| && Lower(a[i]) != Lower(b[i])
    ensures !StartsWithName(a, b)
  {
  }

  lemma DayNamesDistinct(j: nat, k: nat)
    requires j < 7 && k < 7 && j != k
    ensures !StartsWithName(ShortDayNames[k], ShortDayNames[j])
  {
    assert j == 0 || j == 1 || j == 2 || j == 3 || j == 4 || j == 5 || j == 6;
    assert k == 0 || k == 1 || k == 2 || k == 3 || k == 4 || k == 5 || k == 6;
    var a, b := ShortDayNames[k], ShortDayNames[j];
    var i := if Lower(a[0]) != Lower(b[0]) then 0 else if Lower(a[1]) != Lower(b[1]) then 1 else 2;
    NotStartsWithName(a, b, i);
  }

  lemma MonthNamesDistinct(j: nat, k: nat)
    requires j < 12 && k < 12 && j != k
    ensures !StartsWithName(ShortMonthNames[k], ShortMonthNames[j])
  {
    if k < 6 {
      FirstHalfMonthDistinct(j, k);
    } else {
      SecondHalfMonthDistinct(j, k);
    }
  }

  lemma FirstHalfMonthDistinct(j: nat, k: nat)
    requires j < 12 && k < 6 && j != k
    ensures !StartsWithName(ShortMonthNames[k], ShortMonthNames[j])
  {
    assert j == 0 || j == 1 || j == 2 || j == 3 || j == 4 || j == 5 || j == 6 || j == 7 || j == 8 || j == 9 || j == 10 || j == 11;
    assert k == 0 || k == 1 || k == 2 || k == 3 || k == 4 || k == 5;
    var a, b := ShortMonthNames[k], ShortMonthNames[j];
    var i := if Lower(a[0]) != Lower(b[0]) then 0 else if Lower(a[1]) != Lower(b[1]) then 1 else 2;
    NotStartsWithName(a, b, i);
  }

  lemma SecondHalfMonthDistinct(j: nat, k: nat)
    requires j < 12 && 6 <= k < 12 && j != k
    ensures !StartsWithName(ShortMonthNames[k], ShortMonthNames[j])
  {
    assert j == 0 || j == 1 || j == 2 || j == 3 || j == 4 || j == 5 || j == 6 || j == 7 || j == 8 || j == 9 || j == 10 || j == 11;
    assert k == 6 || k == 7 || k == 8 || k == 9 || k == 10 || k == 11;
    var a, b := ShortMonthNames[k], ShortMonthNames[j];
    var i := if Lower(a[0]) != Lower(b[0]) then 0 else if Lower(a[1]) != Lower(b[1]) then 1 else 2;
    NotStartsWithName(a, b, i);
  }

  lemma LookupName(tab: seq<string>, k: nat, rest: string)
    requires k < |tab|
    requires forall j :: 0 <= j < |tab| ==> |tab[j]| == |tab[k]|
    requires forall j :: 0 <= j < |tab| && j != k ==> !StartsWithName(tab[k], tab[j])
    ensures Lookup(tab, tab[k] + rest) == Some((k, rest))
  {
    var s := tab[k] + rest;
    forall j | 0 <= j < |tab| && j != k
      ensures !StartsWithName(s, tab[j])
    {
      assert !StartsWithName(tab[k], tab[j]);
      var i :| 0 <= i < |tab[j]| && Lower(tab[k][i]) != Lower(tab[j][i]);
      assert s[i] == tab[k][i];
    }
    assert StartsWithName(s, tab[k]);
    assert s[|tab[k]|..] == rest;
  }

  lemma GetNumFixed(n: nat, rest: string, fixed: bool)
    requires n < 100
    ensures GetNum(Fixed(n, 2) + rest, fixed) == Some((n, rest))
  {
    var s := Fixed(n, 2) + rest;
    assert s[0] == Fixed(n, 2)[0] && s[1] == Fixed(n, 2)[1];
    assert s[2..] == rest;
    FixedRoundTrip(n, 2);
    assert Fixed(n, 2)[..1] == [Fixed(n, 2)[0]];
  }

  lemma YearFixed(y: nat, rest: string)
    requires y <= 9999
    ensures Year(Fixed(y, 4) + rest) == Some((y, rest))
  {
    var s := Fixed(y, 4) + rest;
    assert s[..4] == Fixed(y, 4) && s[4..] == rest;
    FixedRoundTrip(y, 4);
  }

  lemma SkipOneSpace(rest: string)
    requires rest == [] || rest[0] != ' '
    ensures SkipSpace(" " + rest) == Some(rest)
  {
    assert (" " + rest)[1..] == rest;
    assert CutSpace(" " + rest) == CutSpace(rest) == rest;
  }

  lemma ExpectChar(c: char, rest: string)
    ensures Expect([c] + rest, c) == Some(rest)
  {
    assert ([c] + rest)[1..] == rest;
  }

  lemma ZoneFixed(z: Zone)
    requires z.hours <= 24 && z.minutes <= 60
    ensures ZoneOffset([if z.east then '+' else '-'] + (Fixed(z.hours, 2) + Fixed(z.minutes, 2))) == Some((z, []))
  {
    var s := [if z.east then '+' else '-'] + (Fixed(z.hours, 2) + Fixed(z.minutes, 2));
    assert s[1..3] == Fixed(z.hours, 2) + [];
    assert s[3..5] == Fixed(z.minutes, 2) + [];
    assert s[5..] == [];
    GetNumFixed(z.hours, [], true);
    GetNumFixed(z.minutes, [], true);
  }

  lemma ParseMonthYearRender(month: nat, year: nat, rest: string)
    requires 1 <= month <= 12 && year <= 9999
    ensures ParseMonthYear(RenderMonthYear(month, year, rest)) == Some(((month, year), rest))
  {
    var a2 := Fixed(year, 4) + rest;
    MonthNameStart(month - 1);
    LookupMonth(month, " " + a2);
    MonthYearSteps(ShortMonthNames[month - 1], month - 1, year, rest);
  }

  /** The steps of `ParseMonthYear` over a rendered month and year, once the
      month name is known to be found. */
  lemma MonthYearSteps(name: string, k: nat, year: nat, rest: string)
    requires year <= 9999 && name != [] && name[0] != ' '
    requires Lookup(ShortMonthNames, name + (" " + (Fixed(year, 4) + rest))) == Some((k, " " + (Fixed(year, 4) + rest)))
    ensures ParseMonthYear(" " + (name + (" " + (Fixed(year, 4) + rest)))) == Some(((k + 1, year), rest))
  {
    var a2 := Fixed(year, 4) + rest;
    var a1 := name + (" " + a2);
    assert a1[0] == name[0];
    SkipOneSpace(a1);
    assert a2[0] == Fixed(year, 4)[0] && IsDigit(a2[0]);
    SkipOneSpace(a2);
    YearFixed(year, rest);
  }

  lemma MonthNameStart(k: nat)
    requires k < 12
    ensures |ShortMonthNames[k]| == 3 && ShortMonthNames[k][0] != ' '
  {
    assert k == 0 || k == 1 || k == 2 || k == 3 || k == 4 || k == 5 || k == 6 || k == 7 || k == 8 || k == 9 || k == 10 || k == 11;
  }

  lemma LookupMonth(month: nat, rest: string)
    requires 1 <= month <= 12
    ensures Lookup(ShortMonthNames, ShortMonthNames[month - 1] + rest) == Some((month - 1, rest))
  {
    forall j | 0 <= j < 12 && j != month - 1
      ensures !StartsWithName(ShortMonthNames[month - 1], ShortMonthNames[j])
    {
      MonthNamesDistinct(j, month - 1);
    }
    LookupName(ShortMonthNames, month - 1, rest);
  }

  lemma ParseDayMonthYearRender(d: Date, rest: string)
    requires ValidDate(d)
    ensures ParseDayMonthYear(RenderDate(d, rest)) == Some(((d.day, d.month, d.year), rest))
  {
    var a1 := RenderMonthYear(d.month, d.year, rest);
    assert a1 == " " + (ShortMonthNames[d.month - 1] + (" " + (Fixed(d.year, 4) + rest)));
    GetNumFixed(d.day, a1, true);
    ParseMonthYearRender(d.month, d.year, rest);
  }

  lemma FieldFixed(n: nat, rest: string, fixed: bool, bound: nat)
    requires n < 100 && n < bound
    ensures Field(Fixed(n, 2) + rest, fixed, bound) == Some((n, rest))
  {
    GetNumFixed(n, rest, fixed);
  }

  lemma ColonFieldFixed(n: nat, rest: string, bound: nat)
    requires n < 100 && n < bound
    ensures ColonField(":" + (Fixed(n, 2) + rest), bound) == Some((n, rest))
  {
    ExpectChar(':', Fixed(n, 2) + rest);
    FieldFixed(n, rest, true, bound);
  }

  lemma ParseTimeOfDayRender(t: Stamp, rest: string)
    requires ValidStamp(t) && (rest == [] || rest[0] == ' ')
    ensures ParseTimeOfDay(RenderClock(t, rest)) == Some(((t.hour, t.minute, t.second), rest))
  {
    var a2 := ":" + (Fixed(t.second, 2) + rest);
    var a1 := ":" + (Fixed(t.minute, 2) + a2);
    FieldFixed(t.hour, a1, false, 24);
    ColonFieldFixed(t.minute, a2, 60);
    ColonFieldFixed(t.second, rest, 60);
    assert SkipFraction(rest) == rest;
  }

  lemma ParseZoneTailRender(z: Zone)
    requires z.hours <= 24 && z.minutes <= 60
    ensures ParseZoneTail(" " + RenderZone(z)) == Some(z)
  {
    SkipOneSpace(RenderZone(z));
    ZoneFixed(z);
  }

  /** The parser inverts the renderer: a well-formed RFC1123Z timestamp parses
      back to exactly its fields. */
  lemma ParseRender(weekday: nat, t: Stamp)
    requires weekday < 7 && ValidStamp(t)
    ensures ParseRFC1123Z(Render(weekday, t)) == Some(t)
  {
    var zone := " " + RenderZone(t.zone);
    var clock := RenderClock(t, zone);
    var date := RenderDate(t.date, " " + clock);
    forall j | 0 <= j < 7 && j != weekday
      ensures !StartsWithName(ShortDayNames[weekday], ShortDayNames[j])
    {
      DayNamesDistinct(j, weekday);
    }
    LookupName(ShortDayNames, weekday, "," + (" " + date));
    ExpectChar(',', " " + date);
    SkipOneSpace(date);
    ParseDayMonthYearRender(t.date, " " + clock);
    SkipOneSpace(clock);
    ParseTimeOfDayRender(t, zone);
    ParseZoneTailRender(t.zone);
  }

  /** Dates are taken as written: for a well-formed timestamp the stored text is
      its own calendar date, whatever its time of day and zone offset. */
  lemma ParseFeedDateAsWritten(weekday: nat, t: Stamp, today: Date)
    requires weekday < 7 && ValidStamp(t)
    ensures ParseFeedDate(Render(weekday, t), today) == FormatDate(t.date)
    ensures ParseFeedDate(Render(weekday, t), today)[10..] == " 00:00:00"
  {
    ParseRender(weekday, t);
    FormatDateShape(t.date);
  }

  // --------------------------------------------------------- ReadIDParam

  /** The digits of a decimal integer, without its optional sign. */
  function Unsigned(s: string): string {
    if s != [] && (s[0] == '+' || s[0] == '-') then s[1..] else s
  }

  /** The value of an optionally signed digit string. */
  function SignedValue(s: string): int
    requires Unsigned(s) != [] && AllDigits(Unsigned(s))
  {
    if s[0] == '-' then -(Value(Unsigned(s)) as int) else Value(Unsigned(s))
  }

  /** `strconv.ParseInt(s, 10, 64)`: accepted exactly when the text is an
      optional sign, at least one decimal digit (leading zeros allowed) and
      nothing else, with a value within `int64`. */
  function ParseInt64(s: string): (r: Option<int>)
    ensures r.Some? <==> Unsigned(s) != [] && AllDigits(Unsigned(s)) && IsInt64(SignedValue(s))
    ensures r.Some? ==> r.value == SignedValue(s) && IsInt64(r.value)
  {
    if s == [] then None
    else
      var digits := Unsigned(s);
      if digits == [] || !AllDigits(digits) then None
      else
        var v := SignedValue(s);
        if IsInt64(v) then Some(v) else None
  }

  /** `ReadIDParam` on the already extracted `{id}` parameter. */
  function ReadIDParam(idParam: string): (r: Result<int, string>)
    ensures r == Err("invalid id") <==> idParam == ""
    ensures r.Ok? ==> IsInt64(r.value) && ParseInt64(idParam) == Some(r.value)
    ensures idParam != "" && ParseInt64(idParam).None? ==> r == Err("invalid id type")
    ensures ParseInt64(idParam).Some? ==> r == Ok(ParseInt64(idParam).value)
  {
    if idParam == "" then Err("invalid id")
    else match ParseInt64(idParam)
      case None => Err("invalid id type")
      case Some(id) => Ok(id)
  }

  /** Leading zeros, a plus sign and a negative zero are accepted; a bare sign
      and a stray letter are not. */
  lemma ParseInt64Lenient()
    ensures ParseInt64("007") == Some(7) && ParseInt64("+5") == Some(5) && ParseInt64("-0") == Some(0)
    ensures ParseInt64("-") == None && ParseInt64("1a") == None
    ensures ReadIDParam("007") == Ok(7)
  {
    assert Unsigned("007") == "007" && Value("007") == 7 by {
      assert "007"[..2] == "00" && "00"[..1] == "0";
    }
    assert Unsigned("+5") == "5" && Value("5") == 5;
    assert Unsigned("-0") == "0" && Value("0") == 0;
    assert !AllDigits("1a") by { assert !IsDigit("1a"[1]); }
  }

  /** Every `int64`'s decimal rendering reads back as itself. */
  lemma ParseFormatInt(n: int)
    requires IsInt64(n)
    ensures ParseInt64(FormatInt(n)) == Some(n)
    ensures ReadIDParam(FormatInt(n)) == Ok(n)
  {
    var u := Abs(n);
    var digits := Fixed(u, NumDigits(u));
    FixedRoundTrip(u, NumDigits(u));
    var s := FormatInt(n);
    if n < 0 {
      assert s == "-" + digits;
      assert Unsigned(s) == digits;
    } else {
      assert s == digits;
      assert IsDigit(s[0]);
    }
  }
}
