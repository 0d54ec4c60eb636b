/** Civil dates (authkeys.rs): day numbers and Gregorian dates are inverse to each other. */
module Dates {
  import opened Prelude
  import opened Text

  datatype Date = Date(year: int, month: int, day: int)

  /** Division as the machine does it: towards zero. */
  function Quot(a: int, b: int): int
    requires b > 0
  {
    if a >= 0 then a / b else -((-a) / b)
  }

  function DaysFromCivil(y: int, m: int, d: int): int {
    var yy := if m <= 2 then y - 1 else y;
    var era := Quot(if yy >= 0 then yy else yy - 399, 400);
    var yoe := yy - era * 400;
    var doy := Quot(153 * (if m > 2 then m - 3 else m + 9) + 2, 5) + d - 1;
    var doe := yoe * 365 + Quot(yoe, 4) - Quot(yoe, 100) + doy;
    era * 146097 + doe - 719468
  }

  function CivilFromDays(days: int): Date {
    var z := days + 719468;
    var era := Quot(if z >= 0 then z else z - 146096, 146097);
    var doe := z - era * 146097;
    var yoe := Quot(doe - Quot(doe, 1460) + Quot(doe, 36524) - Quot(doe, 146096), 365);
    var y := yoe + era * 400;
    var doy := doe - (365 * yoe + Quot(yoe, 4) - Quot(yoe, 100));
    var mp := Quot(5 * doy + 2, 153);
    var d := doy - Quot(153 * mp + 2, 5) + 1;
    var m := if mp < 10 then mp + 3 else mp - 9;
    Date(if m <= 2 then y + 1 else y, m, d)
  }

  // ---- The Gregorian calendar ----

  predicate IsLeap(y: int) {
    y % 4 == 0 && (y % 100 != 0 || y % 400 == 0)
  }

  function DaysIn(y: int, m: int): int {
    if m == 2 then (if IsLeap(y) then 29 else 28)
    else if m == 4 || m == 6 || m == 9 || m == 11 then 30
    else 31
  }

  predicate Valid(c: Date) {
    1 <= c.month <= 12 && 1 <= c.day <= DaysIn(c.year, c.month)
  }

  function NextDay(c: Date): Date {
    if c.day < DaysIn(c.year, c.month) then Date(c.year, c.month, c.day + 1)
    else if c.month < 12 then Date(c.year, c.month + 1, 1)
    else Date(c.year + 1, 1, 1)
  }

  function DayNumber(c: Date): int {
    DaysFromCivil(c.year, c.month, c.day)
  }

  // ---- Years of an era that start on 1 March ----

  function YearStart(yoe: int): int {
    365 * yoe + yoe / 4 - yoe / 100
  }

  /** Days before a month that many months after March, in the year from March. */
  function MonthStart(mp: int): int {
    (153 * mp + 2) / 5
  }

  /** Day of the era to year of the era. */
  lemma YearOfEra(yoe: int, doy: int)
    requires 0 <= yoe < 400 && 0 <= doy <= 365
    requires doy == 365 ==> yoe % 4 == 3 && (yoe % 100 != 99 || yoe == 399)
    ensures var doe := YearStart(yoe) + doy;
      && 0 <= doe < 146097
      && (doe - doe / 1460 + doe / 36524 - doe / 146096) / 365 == yoe
  {
    hide YearStart;
    var c, q, s := yoe / 100, yoe % 100 / 4, yoe % 4;
    YearSplits(yoe);
    var inCentury := 1461 * q + 365 * s + doy;
    assert YearStart(yoe) + doy == 36524 * c + inCentury;
    assert 0 <= inCentury <= 36524 && (inCentury == 36524 ==> c == 3);
    Centuries(c, inCentury);
    LeapDays(c, q, s, doy);
  }

  lemma YearSplits(yoe: int)
    requires 0 <= yoe < 400
    ensures var c, q, s := yoe / 100, yoe % 100 / 4, yoe % 4;
      && 0 <= c <= 3 && 0 <= q <= 24 && 0 <= s <= 3 && yoe == 100 * c + 4 * q + s
      && YearStart(yoe) == 36524 * c + 1461 * q + 365 * s
      && (yoe % 4 == 3 && (yoe % 100 != 99 || yoe == 399) ==> s == 3 && (q != 24 || c == 3))
  {
    var c, r := yoe / 100, yoe % 100;
    assert yoe / 4 == 25 * c + r / 4 && yoe % 4 == r % 4;
  }

  lemma Centuries(c: int, inCentury: int)
    requires 0 <= c <= 3 && 0 <= inCentury <= 36524 && (inCentury == 36524 ==> c == 3)
    ensures (36524 * c + inCentury) / 36524 == if inCentury == 36524 then 4 else c
    ensures (36524 * c + inCentury) / 146096 == if inCentury == 36524 then 1 else 0
  {
  }

  lemma LeapDays(c: int, q: int, s: int, doy: int)
    requires 0 <= c <= 3 && 0 <= q <= 24 && 0 <= s <= 3 && 0 <= doy <= 365
    requires doy == 365 ==> s == 3 && (q != 24 || c == 3)
    ensures var doe := 36524 * c + 1461 * q + 365 * s + doy;
      365 * (100 * c + 4 * q + s) <= doe - doe / 1460 + c < 365 * (100 * c + 4 * q + s) + 365
  {
    var doe := 36524 * c + 1461 * q + 365 * s + doy;
    var leaps := doe / 1460;
    assert 1460 * leaps <= doe < 1460 * leaps + 1460;
    assert doe == 1460 * (25 * c + q) + 24 * c + q + 365 * s + doy;
  }

  lemma MonthOfYear(mp: int, d: int)
    requires 0 <= mp <= 11 && 1 <= d <= MonthStart(mp + 1) - MonthStart(mp)
    ensures (5 * (MonthStart(mp) + d - 1) + 2) / 153 == mp
  {
  }

  // ---- Dates to day numbers and back ----

  function Era(yy: int): int {
    yy / 400
  }

  /** The conversion in floor division, with the year counted from March. */
  lemma DaysFromMarch(y: int, m: int, d: int)
    requires 1 <= m <= 12
    ensures var yy, mp := if m <= 2 then y - 1 else y, if m > 2 then m - 3 else m + 9;
      DaysFromCivil(y, m, d) == Era(yy) * 146097 + YearStart(yy % 400) + MonthStart(mp) + d - 1 - 719468
  {
    var yy := if m <= 2 then y - 1 else y;
    assert Quot(if yy >= 0 then yy else yy - 399, 400) == yy / 400;
    assert yy - (yy / 400) * 400 == yy % 400;
  }

  lemma CivilFromEra(era: int, doe: int)
    requires 0 <= doe < 146097
    ensures var yoe := (doe - doe / 1460 + doe / 36524 - doe / 146096) / 365;
      var doy := doe - YearStart(yoe);
      0 <= yoe && (doy >= 0 ==>
      CivilFromDays(era * 146097 + doe - 719468) == InEra(era, yoe, doy))
  {
    hide YearStart, Quot;
    EraOf(era, doe);
    DaysWithoutLeaps(doe);
    var days := doe - doe / 1460 + doe / 36524 - doe / 146096;
    var yoe := days / 365;
    QuotIs(doe, 1460);
    QuotIs(doe, 36524);
    QuotIs(doe, 146096);
    QuotIs(days, 365);
    QuotIs(yoe, 4);
    QuotIs(yoe, 100);
    YearStartIs(yoe);
    var doy := doe - YearStart(yoe);
    if doy >= 0 {
      QuotIs(5 * doy + 2, 153);
      QuotIs(153 * ((5 * doy + 2) / 153) + 2, 5);
    }
  }

  lemma QuotIs(a: int, b: int)
    requires a >= 0 && b > 0
    ensures Quot(a, b) == a / b
  {
  }

  lemma DaysWithoutLeaps(doe: int)
    requires 0 <= doe < 146097
    ensures doe - doe / 1460 + doe / 36524 - doe / 146096 >= 0
  {
  }

  lemma YearStartIs(yoe: int)
    ensures YearStart(yoe) == 365 * yoe + yoe / 4 - yoe / 100
  {
  }

  /** The date of a day of a year from March. */
  function InEra(era: int, yoe: int, doy: int): Date {
    var mp := (5 * doy + 2) / 153;
    var m := if mp < 10 then mp + 3 else mp - 9;
    Date(if m <= 2 then yoe + era * 400 + 1 else yoe + era * 400, m, doy - MonthStart(mp) + 1)
  }

  lemma EraOf(era: int, doe: int)
    requires 0 <= doe < 146097
    ensures var z := era * 146097 + doe; Quot(if z >= 0 then z else z - 146096, 146097) == era
  {
  }

  /** The last day of a year from March is there only when its February is a leap one. */
  lemma LeapFromMarch(yy: int)
    ensures IsLeap(yy + 1) <==> yy % 400 % 4 == 3 && (yy % 400 % 100 != 99 || yy % 400 == 399)
  {
    Remainders(yy);
    NextRemainders(yy);
  }

  lemma Remainders(yy: int)
    ensures yy % 400 % 4 == yy % 4 && yy % 400 % 100 == yy % 100
  {
    var e, r := yy / 400, yy % 400;
    By4(yy, 100 * e + r / 4, r % 4);
    By100(yy, 4 * e + r / 100, r % 100);
  }

  lemma By4(x: int, k: int, r: int)
    requires x == 4 * k + r && 0 <= r < 4
    ensures x / 4 == k && x % 4 == r
  {
  }

  lemma By100(x: int, k: int, r: int)
    requires x == 100 * k + r && 0 <= r < 100
    ensures x / 100 == k && x % 100 == r
  {
  }

  lemma By400(x: int, k: int, r: int)
    requires x == 400 * k + r && 0 <= r < 400
    ensures x / 400 == k && x % 400 == r
  {
  }

  lemma NextRemainders(x: int)
    ensures if x % 4 == 3 then (x + 1) / 4 == x / 4 + 1 && (x + 1) % 4 == 0 else (x + 1) / 4 == x / 4 && (x + 1) % 4 == x % 4 + 1
    ensures if x % 100 == 99 then (x + 1) / 100 == x / 100 + 1 && (x + 1) % 100 == 0 else (x + 1) / 100 == x / 100 && (x + 1) % 100 == x % 100 + 1
    ensures if x % 400 == 399 then (x + 1) / 400 == x / 400 + 1 && (x + 1) % 400 == 0 else (x + 1) / 400 == x / 400 && (x + 1) % 400 == x % 400 + 1
  {
    if x % 4 == 3 { By4(x + 1, x / 4 + 1, 0); } else { By4(x + 1, x / 4, x % 4 + 1); }
    if x % 100 == 99 { By100(x + 1, x / 100 + 1, 0); } else { By100(x + 1, x / 100, x % 100 + 1); }
    if x % 400 == 399 { By400(x + 1, x / 400 + 1, 0); } else { By400(x + 1, x / 400, x % 400 + 1); }
  }

  /** Every Gregorian date comes back from its day number. */
  lemma DateRoundTrip(c: Date)
    requires Valid(c)
    ensures CivilFromDays(DayNumber(c)) == c
  {
    hide DaysFromCivil, CivilFromDays, IsLeap, YearStart, MonthStart;
    var yy, mp := if c.month <= 2 then c.year - 1 else c.year, if c.month > 2 then c.month - 3 else c.month + 9;
    DaysFromMarch(c.year, c.month, c.day);
    var yoe, doy := yy % 400, MonthStart(mp) + c.day - 1;
    LeapFromMarch(yy);
    DayOfYear(c);
    YearOfEra(yoe, doy);
    CivilFromEra(Era(yy), YearStart(yoe) + doy);
    MonthOfYear(mp, c.day);
    assert yoe + Era(yy) * 400 == yy;
  }

  /** Where a valid date falls in the year from March. */
  lemma DayOfYear(c: Date)
    requires Valid(c)
    ensures var mp := if c.month > 2 then c.month - 3 else c.month + 9;
      && c.day <= MonthStart(mp + 1) - MonthStart(mp)
      && 0 <= MonthStart(mp) + c.day - 1 <= 365
      && (MonthStart(mp) + c.day - 1 == 365 ==> c.month == 2 && IsLeap(c.year))
  {
  }

  /** Day numbers count calendar days: 1 January 1970 is 0, and the day after is one more. */
  lemma CountsDays(c: Date)
    requires Valid(c)
    ensures DayNumber(Date(1970, 1, 1)) == 0
    ensures Valid(NextDay(c)) && DayNumber(NextDay(c)) == DayNumber(c) + 1
  {
    hide DaysFromCivil, IsLeap, YearStart, Era;
    FirstDay();
    var n := NextDay(c);
    DaysFromMarch(c.year, c.month, c.day);
    DaysFromMarch(n.year, n.month, n.day);
    if c.month == 2 && n.month == 3 {
      YearTurns(c.year);
    }
  }

  lemma FirstDay()
    ensures DaysFromCivil(1970, 1, 1) == 0
  {
  }

  /** From the end of February to the first of March. */
  lemma YearTurns(y: int)
    ensures Era(y) * 146097 + YearStart(y % 400) ==
      Era(y - 1) * 146097 + YearStart((y - 1) % 400) + if IsLeap(y) then 366 else 365
  {
    hide IsLeap;
    LeapFromMarch(y - 1);
    var r := (y - 1) % 400;
    By400(y - 1, Era(y - 1), r);
    NextRemainders(r);
    if r == 399 {
      By400(y, Era(y - 1) + 1, 0);
    } else {
      By400(y, Era(y - 1), r + 1);
    }
  }

  /** Every day number from 1970 on is that of a valid date. */
  lemma {:induction false} DayRoundTrip(n: nat)
    ensures var c := CivilFromDays(n);
      Valid(c) && c.year >= 1970 && DayNumber(c) == n
  {
    hide DaysFromCivil, CivilFromDays;
    if n == 0 {
      CountsDays(Date(1970, 1, 1));
      DateRoundTrip(Date(1970, 1, 1));
    } else {
      DayRoundTrip(n - 1);
      var before := CivilFromDays(n - 1);
      CountsDays(before);
      DateRoundTrip(NextDay(before));
    }
  }

  // ---- Text ----

  const SECS_PER_DAY := 86400

  function Zeros(n: nat): string {
    if n == 0 then "" else Zeros(n - 1) + "0"
  }

  /** A number padded with zeros to a width. */
  function Padded(n: nat, width: nat): string {
    var s := Decimal(n);
    if |s| < width then Zeros(width - |s|) + s else s
  }

  function FormatDate(t: nat): string {
    var c := CivilFromDays(t / SECS_PER_DAY);
    if c.year < 0 || c.month < 0 || c.day < 0 then ""
    else Padded(c.year, 4) + "-" + Padded(c.month, 2) + "-" + Padded(c.day, 2)
  }

  function SplitOn(s: string, c: char): (parts: seq<string>)
    decreases |s|
  {
    if c !in s then [s] else [s[..Index(s, c)]] + SplitOn(s[Index(s, c) + 1..], c)
  }

  function ParseDate(s: string): Option<nat> {
    var parts := SplitOn(s, '-');
    if |parts| != 3 then None
    else
      match (ParseNumber(parts[0], 10), ParseNumber(parts[1], 10), ParseNumber(parts[2], 10))
      case (Some(y), Some(m), Some(d)) =>
        if !(1 <= m <= 12) || !(1 <= d <= 31) || !(1970 <= y <= 9999) then None
        else
          var t := DaysFromCivil(y, m, d) * SECS_PER_DAY;
          if t < 0 then None else Some(t)
      case _ => None
  }

  lemma {:induction false} ZerosRead(n: nat, s: string, v: nat)
    requires DigitsValue(s, 10) == Some(v)
    ensures DigitsValue(Zeros(n) + s, 10) == Some(v)
    ensures forall c | c in Zeros(n) :: c == '0'
    decreases n, |s|
  {
    hide HexValue;
    if s != "" {
      assert (Zeros(n) + s)[..|Zeros(n) + s| - 1] == Zeros(n) + s[..|s| - 1];
      ZerosRead(n, s[..|s| - 1], DigitsValue(s[..|s| - 1], 10).value);
    } else {
      assert Zeros(n) + s == Zeros(n);
      OnlyZeros(n);
    }
  }

  lemma {:induction false} OnlyZeros(n: nat)
    ensures DigitsValue(Zeros(n), 10) == Some(0)
    ensures forall c | c in Zeros(n) :: c == '0'
  {
    if n > 0 {
      OnlyZeros(n - 1);
      assert Zeros(n)[..|Zeros(n)| - 1] == Zeros(n - 1) && Zeros(n)[|Zeros(n)| - 1] == '0';
    }
  }

  lemma DigitsAreNoSpace()
    ensures forall c: char :: '0' <= c <= '9' ==> !IsSpace(c) && c != '-' && c != '+'
  {
  }

  lemma PaddedReads(n: nat, width: nat)
    ensures ParseNumber(Padded(n, width), 10) == Some(n)
    ensures '-' !in Padded(n, width) && forall c | c in Padded(n, width) :: !IsSpace(c)
  {
    hide IsSpace, DigitsValue, Decimal, Zeros;
    DecimalReads(n);
    DigitsAreNoSpace();
    NoZeros();
    var s, pad := Padded(n, width), if |Decimal(n)| < width then width - |Decimal(n)| else 0;
    assert Zeros(0) + Decimal(n) == Decimal(n);
    assert s == Zeros(pad) + Decimal(n);
    ZerosRead(pad, Decimal(n), n);
    assert s[0] in s;
  }

  lemma NoZeros()
    ensures Zeros(0) == ""
  {
  }

  lemma SplitsOne(a: string, t: string)
    requires '-' !in a
    ensures SplitOn(a + "-" + t, '-') == [a] + SplitOn(t, '-')
  {
    var s := a + "-" + t;
    assert s[|a|] == '-' && s[..|a|] == a && s[|a| + 1..] == t;
    IndexIs(s, |a|, '-');
  }

  lemma SplitsThree(a: string, b: string, c: string)
    requires '-' !in a && '-' !in b && '-' !in c
    ensures SplitOn(a + "-" + b + "-" + c, '-') == [a, b, c]
  {
    hide SplitOn;
    var t := b + "-" + c;
    assert a + "-" + b + "-" + c == a + "-" + t;
    SplitsOne(a, t);
    SplitsOne(b, c);
    SplitsNot(c);
  }

  lemma SplitsNot(c: string)
    requires '-' !in c
    ensures SplitOn(c, '-') == [c]
  {
  }

  function Midnight(t: nat): nat {
    t / SECS_PER_DAY * SECS_PER_DAY
  }

  /** What a written date is read as: the midnight it begins with, and nothing once the year takes
      more than four digits. */
  function ReadAgain(t: nat): Option<nat> {
    if CivilFromDays(t / SECS_PER_DAY).year <= 9999 then Some(Midnight(t)) else None
  }

  /** The date written for any instant reads back as its midnight, if and only if the year is at most
      9999. */
  lemma DateTextRoundTrip(t: nat)
    ensures ParseDate(FormatDate(t)) == ReadAgain(t)
    ensures FormatDate(t) != "" && forall c | c in FormatDate(t) :: !IsSpace(c)
  {
    hide CivilFromDays, DaysFromCivil, ParseNumber, Padded, SplitOn;
    DayRoundTrip(t / SECS_PER_DAY);
    var c := CivilFromDays(t / SECS_PER_DAY);
    PaddedReads(c.year, 4);
    PaddedReads(c.month, 2);
    PaddedReads(c.day, 2);
    SplitsThree(Padded(c.year, 4), Padded(c.month, 2), Padded(c.day, 2));
  }

  function DateText(y: nat, m: nat, d: nat): string {
    Padded(y, 4) + "-" + Padded(m, 2) + "-" + Padded(d, 2)
  }

  /** A date text in range is always accepted, as the number its parts convert to. */
  lemma InRangeIsAccepted(y: nat, m: nat, d: nat)
    requires 1970 <= y <= 9999 && 1 <= m <= 12 && 1 <= d <= 31
    ensures DaysFromCivil(y, m, d) >= 0
    ensures ParseDate(DateText(y, m, d)) == Some(DaysFromCivil(y, m, d) * SECS_PER_DAY)
  {
    hide ParseNumber, Padded, SplitOn, DaysFromCivil;
    PaddedReads(y, 4);
    PaddedReads(m, 2);
    PaddedReads(d, 2);
    SplitsThree(Padded(y, 4), Padded(m, 2), Padded(d, 2));
    NotBeforeEpoch(y, m, d);
  }

  lemma NotBeforeEpoch(y: nat, m: nat, d: nat)
    requires 1970 <= y && 1 <= m <= 12 && 1 <= d
    ensures DaysFromCivil(y, m, d) >= 0
  {
    hide DaysFromCivil;
    DaysFromMarch(y, m, d);
    FirstDay();
    DaysFromMarch(1970, 1, 1);
    if m <= 2 {
      YearsGrow(1969, y - 1);
    } else {
      YearsGrow(1969, y);
    }
  }

  lemma {:induction false} YearsGrow(y: int, y': int)
    requires y <= y'
    ensures Era(y) * 146097 + YearStart(y % 400) <= Era(y') * 146097 + YearStart(y' % 400)
    ensures y < y' ==> Era(y) * 146097 + YearStart(y % 400) + 365 <= Era(y') * 146097 + YearStart(y' % 400)
    decreases y' - y
  {
    hide Era, YearStart;
    if y < y' {
      YearsGrow(y, y' - 1);
      YearTurns(y');
    }
  }

  /** The parser checks days against 31 only. Every text in range is accepted; it reads as the very
      date it spells if and only if its month has that day, and otherwise as the day that many
      days into the next month. */
  lemma ParsesAsWritten(y: nat, m: nat, d: nat)
    requires 1970 <= y <= 9999 && 1 <= m <= 12 && 1 <= d <= 31
    ensures ParseDate(DateText(y, m, d)).Some?
    ensures var read := CivilFromDays(ParseDate(DateText(y, m, d)).value / SECS_PER_DAY);
      && (read == Date(y, m, d) <==> d <= DaysIn(y, m))
      && (d > DaysIn(y, m) ==> read == Date(y, m + 1, d - DaysIn(y, m)))
  {
    hide DateText, ParseDate, DaysFromCivil, CivilFromDays, IsLeap;
    InRangeIsAccepted(y, m, d);
    var n := DaysFromCivil(y, m, d);
    assert n * SECS_PER_DAY / SECS_PER_DAY == n;
    if d <= DaysIn(y, m) {
      DateRoundTrip(Date(y, m, d));
    } else {
      RollsOver(y, m, d);
      DateRoundTrip(Date(y, m + 1, d - DaysIn(y, m)));
    }
  }

  /** A calendar date of four years' digits, in the exact form the writer uses. */
  ghost predicate IsStrict(s: string) {
    exists c: Date :: Valid(c) && 1970 <= c.year <= 9999 && s == DateText(c.year, c.month, c.day)
  }

  /** Of all texts the parser accepts, the ones the writer writes back are exactly the strict ones. */
  lemma AcceptedAndStrict(s: string)
    requires ParseDate(s).Some?
    ensures FormatDate(ParseDate(s).value) == s <==> IsStrict(s)
  {
    hide DateText, SplitOn, ParseNumber, DaysFromCivil, CivilFromDays, IsLeap;
    var parts := SplitOn(s, '-');
    var y, m, d := ParseNumber(parts[0], 10).value, ParseNumber(parts[1], 10).value, ParseNumber(parts[2], 10).value;
    var t := ParseDate(s).value;
    InRangeIsAccepted(y, m, d);
    ParsesAsWritten(y, m, d);
    assert t == ParseDate(DateText(y, m, d)).value;
    var c := CivilFromDays(t / SECS_PER_DAY);
    DayRoundTrip(t / SECS_PER_DAY);
    WritesDate(t);
    forall c: Date | Valid(c) && 1970 <= c.year <= 9999 && s == DateText(c.year, c.month, c.day)
      ensures FormatDate(t) == s
    {
      ParsesAsWritten(c.year, c.month, c.day);
    }
  }

  lemma WritesDate(t: nat)
    ensures var c := CivilFromDays(t / SECS_PER_DAY);
      c.year >= 0 && c.month >= 0 && c.day >= 0 && FormatDate(t) == DateText(c.year, c.month, c.day)
  {
    hide CivilFromDays, Padded;
    DayRoundTrip(t / SECS_PER_DAY);
  }

  lemma RollsOver(y: int, m: int, d: int)
    requires 1 <= m < 12
    ensures DaysFromCivil(y, m, d) == DaysFromCivil(y, m + 1, d - DaysIn(y, m))
  {
    hide DaysFromCivil, IsLeap, YearStart, Era;
    DaysFromMarch(y, m, d);
    DaysFromMarch(y, m + 1, d - DaysIn(y, m));
    if m == 2 {
      YearTurns(y);
    }
  }

  // ---- Expiry instants ----

  /** `ttl` days from now, rounded up to the next midnight. */
  function ExpiryFromTtlDays(now: nat, ttl: nat): nat {
    var target := now + ttl * SECS_PER_DAY;
    (target / SECS_PER_DAY + 1) * SECS_PER_DAY
  }

  /** The expiry is a midnight, strictly after the time to live ends, by at most a day. */
  lemma ExpiryIsJustAfter(now: nat, ttl: nat)
    ensures var e := ExpiryFromTtlDays(now, ttl);
      && e % SECS_PER_DAY == 0
      && now + ttl * SECS_PER_DAY < e <= now + ttl * SECS_PER_DAY + SECS_PER_DAY
  {
  }

  /** Dates as they are written: the first second of all, and the first and the last of a leap day. */
  lemma SampleDates()
    ensures FormatDate(0) == "1970-01-01"
    ensures FormatDate(1709164800) == FormatDate(1709251199) == "2024-02-29"
  {
    hide Decimal, CivilFromDays;
    assert CivilFromDays(0) == Date(1970, 1, 1) by { EpochDay(); }
    assert CivilFromDays(19782) == Date(2024, 2, 29) by { LeapDay(); }
    assert 1709164800 / SECS_PER_DAY == 1709251199 / SECS_PER_DAY == 19782;
    SampleDecimals();
    assert Zeros(1) == "0" && Zeros(0) == "";
  }

  lemma EpochDay()
    ensures CivilFromDays(0) == Date(1970, 1, 1)
  {
  }

  lemma LeapDay()
    ensures CivilFromDays(19782) == Date(2024, 2, 29)
  {
  }

  lemma SampleDecimals()
    ensures Decimal(1970) == "1970" && Decimal(2024) == "2024" && Decimal(1) == "1" && Decimal(2) == "2" && Decimal(29) == "29"
  {
    assert Decimal(19) == "19" && Decimal(197) == "197" && Decimal(20) == "20" && Decimal(202) == "202";
  }
}
