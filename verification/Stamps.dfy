/**
 * scripts/backup-common.ts, `stampNow`: the time label of a backup's key. Labels sort as strings
 * in the order of the instants they name, to the second.
 */
module Stamps {
  import opened Text

  /** An instant in UTC, as `Date` gives its fields; years of four digits. */
  datatype Utc = Utc(year: nat, month: nat, day: nat, hour: nat, minute: nat, second: nat, milli: nat)

  predicate Leap(year: nat) {
    year % 4 == 0 && (year % 100 != 0 || year % 400 == 0)
  }

  function MonthLength(year: nat, month: nat): nat {
    if month == 2 then (if Leap(year) then 29 else 28)
    else if month in {4, 6, 9, 11} then 30 else 31
  }

  predicate Valid(t: Utc) {
    && t.year <= 9999 && 1 <= t.month <= 12 && 1 <= t.day <= MonthLength(t.year, t.month)
    && t.hour < 24 && t.minute < 60 && t.second < 60 && t.milli < 1000
  }

  // ----- the true order of time -----

  function DaysBeforeYear(year: nat): nat {
    if year == 0 then 0 else DaysBeforeYear(year - 1) + if Leap(year - 1) then 366 else 365
  }

  function DaysBeforeMonth(year: nat, month: nat): nat {
    if month <= 1 then 0 else DaysBeforeMonth(year, month - 1) + MonthLength(year, month - 1)
  }

  /** Days since the first day of year 0. */
  function Day(t: Utc): int {
    DaysBeforeYear(t.year) + DaysBeforeMonth(t.year, t.month) + t.day - 1
  }

  /** Seconds since the start of year 0. */
  function Second(t: Utc): int {
    Day(t) * 86400 + t.hour * 3600 + t.minute * 60 + t.second
  }

  /** The Gregorian calendar: days before a year in closed form, and the lengths of the months. */
  lemma {:induction false} Gregorian(year: nat, month: nat)
    ensures DaysBeforeYear(year) == 365 * year + (year + 3) / 4 - (year + 99) / 100 + (year + 399) / 400
    ensures 1 <= month <= 12 && month != 2 ==> MonthLength(year, month) == 30 + (month + month / 8) % 2
    ensures MonthLength(year, 2) == DaysBeforeYear(year + 1) - DaysBeforeYear(year) - 337
  {
    hide DaysBeforeYear, Leap;
    DaysBefore(year);
    DaysBefore(year + 1);
    YearStep(year);
    LeapBy(year);
    Quotients(year);
  }

  function DaysInClosedForm(year: nat): int {
    365 * year + (year + 3) / 4 - (year + 99) / 100 + (year + 399) / 400
  }

  lemma ClosedFormStep(year: nat)
    ensures DaysInClosedForm(year + 1) == DaysInClosedForm(year) + if Leap(year) then 366 else 365
  {
    hide Leap;
    LeapBy(year);
    Quotients(year);
  }

  lemma {:induction false} DaysBefore(year: nat)
    ensures DaysBeforeYear(year) == DaysInClosedForm(year)
  {
    hide Leap;
    if year > 0 {
      hide DaysInClosedForm;
      DaysBefore(year - 1);
      YearStep(year - 1);
      ClosedFormStep(year - 1);
    }
  }

  /** A leap year is one in four, but for one in a hundred, but for one in four hundred. */
  lemma LeapBy(year: nat)
    ensures (if Leap(year) then 1 else 0)
         == (if year % 4 == 0 then 1 else 0) - (if year % 100 == 0 then 1 else 0) + (if year % 400 == 0 then 1 else 0)
  {
    if year % 100 == 0 { HundredsAreFours(year); }
    if year % 400 == 0 { FourHundredsAreHundreds(year); }
  }

  lemma HundredsAreFours(y: nat)
    requires y % 100 == 0
    ensures y % 4 == 0
  {
    FourTimes(25 * (y / 100));
  }

  lemma FourTimes(k: nat)
    ensures 4 * k % 4 == 0
  {}

  lemma HundredTimes(k: nat)
    ensures 100 * k % 100 == 0
  {}

  lemma FourHundredsAreHundreds(y: nat)
    requires y % 400 == 0
    ensures y % 100 == 0
  {
    HundredTimes(4 * (y / 400));
  }

  lemma Quotients(y: nat)
    ensures (y + 4) / 4 == (y + 3) / 4 + if y % 4 == 0 then 1 else 0
    ensures (y + 100) / 100 == (y + 99) / 100 + if y % 100 == 0 then 1 else 0
    ensures (y + 400) / 400 == (y + 399) / 400 + if y % 400 == 0 then 1 else 0
  {
    Quarter(y);
    Hundredth(y);
    FourHundredth(y);
  }

  lemma Quarter(y: nat)
    ensures (y + 4) / 4 == (y + 3) / 4 + if y % 4 == 0 then 1 else 0
  {}

  lemma Hundredth(y: nat)
    ensures (y + 100) / 100 == (y + 99) / 100 + if y % 100 == 0 then 1 else 0
  {}

  lemma FourHundredth(y: nat)
    ensures (y + 400) / 400 == (y + 399) / 400 + if y % 400 == 0 then 1 else 0
  {}

  /** A day, an hour, a minute and a second are as long as they are. */
  lemma UnitsOfTime(t: Utc)
    ensures Second(t.(day := t.day + 1)) == Second(t) + 24 * 60 * 60
    ensures Second(t.(hour := t.hour + 1)) == Second(t) + 60 * 60
    ensures Second(t.(minute := t.minute + 1)) == Second(t) + 60 && Second(t.(second := t.second + 1)) == Second(t) + 1
  {
    hide DaysBeforeYear, DaysBeforeMonth;
  }

  lemma {:induction false} MonthsInOrder(year: nat, m: nat, n: nat)
    requires 1 <= m < n <= 13
    ensures DaysBeforeMonth(year, m) + MonthLength(year, m) <= DaysBeforeMonth(year, n)
  {
    if m + 1 < n { MonthsInOrder(year, m, n - 1); }
  }

  lemma YearLength(year: nat)
    ensures DaysBeforeYear(year) + DaysBeforeMonth(year, 13) == DaysBeforeYear(year + 1)
  {
    hide DaysBeforeYear, DaysBeforeMonth;
    MonthStep(year, 0); MonthStep(year, 1); MonthStep(year, 2); MonthStep(year, 3);
    MonthStep(year, 4); MonthStep(year, 5); MonthStep(year, 6); MonthStep(year, 7);
    MonthStep(year, 8); MonthStep(year, 9); MonthStep(year, 10); MonthStep(year, 11); MonthStep(year, 12);
    YearStep(year);
  }

  lemma MonthStep(year: nat, month: nat)
    ensures DaysBeforeMonth(year, month + 1)
         == if month == 0 then 0 else DaysBeforeMonth(year, month) + MonthLength(year, month)
  {}

  lemma YearStep(year: nat)
    ensures DaysBeforeYear(year + 1) == DaysBeforeYear(year) + if Leap(year) then 366 else 365
  {}

  lemma {:induction false} YearsInOrder(y: nat, z: nat)
    requires y < z
    ensures DaysBeforeYear(y + 1) <= DaysBeforeYear(z)
  {
    hide Leap;
    if y + 1 < z { YearsInOrder(y, z - 1); }
  }

  predicate DateBefore(a: Utc, b: Utc) {
    a.year < b.year || (a.year == b.year && (a.month < b.month || (a.month == b.month && a.day < b.day)))
  }

  lemma EarlierDate(a: Utc, b: Utc)
    requires Valid(a) && Valid(b) && DateBefore(a, b)
    ensures Day(a) < Day(b)
  {
    hide DaysBeforeYear, DaysBeforeMonth, MonthLength;
    if a.year < b.year {
      MonthsInOrder(a.year, a.month, 13);
      YearLength(a.year);
      YearsInOrder(a.year, b.year);
    } else if a.month < b.month {
      MonthsInOrder(a.year, a.month, b.month);
    }
  }

  // ----- the label -----

  function Pow10(width: nat): nat {
    if width == 0 then 1 else 10 * Pow10(width - 1)
  }

  /** `n` in `width` decimal digits. */
  function Digits(n: nat, width: nat): (s: string)
    ensures |s| == width
    ensures forall c :: c in s ==> '0' <= c <= '9'
  {
    if width == 0 then "" else Digits(n / 10, width - 1) + [('0' as int + n % 10) as char]
  }

  datatype Field = Field(value: nat, width: nat, mark: char)

  /** Every field in its digits, followed by its mark. */
  function Joined(fields: seq<Field>): string {
    if fields == [] then ""
    else Digits(fields[0].value, fields[0].width) + [fields[0].mark] + Joined(fields[1..])
  }

  /** `toISOString`. */
  function IsoString(t: Utc): string {
    Joined([Field(t.year, 4, '-'), Field(t.month, 2, '-'), Field(t.day, 2, 'T'),
            Field(t.hour, 2, ':'), Field(t.minute, 2, ':'), Field(t.second, 2, '.'), Field(t.milli, 3, 'Z')])
  }

  /** Where the digits that end `s[..n]` begin. */
  function DigitsStart(s: string, n: nat): (i: nat)
    requires n <= |s|
    ensures i <= n
  {
    if n > 0 && '0' <= s[n - 1] <= '9' then DigitsStart(s, n - 1) else n
  }

  /** `.replace(/\.\d+Z$/, "Z")`. */
  function DropFraction(s: string): string {
    if s == "" || s[|s| - 1] != 'Z' then s
    else
      var i := DigitsStart(s, |s| - 1);
      if i < |s| - 1 && i > 0 && s[i - 1] == '.' then s[..i - 1] + "Z" else s
  }

  /** `.replace(/:/g, "-")`. */
  function DashColons(s: string): (r: string)
    ensures |r| == |s|
    ensures forall i :: 0 <= i < |s| ==> r[i] == if s[i] == ':' then '-' else s[i]
  {
    seq(|s|, i requires 0 <= i < |s| => if s[i] == ':' then '-' else s[i])
  }

  function StampNow(t: Utc): string {
    DashColons(DropFraction(IsoString(t)))
  }

  function LabelFields(t: Utc): seq<Field> {
    [Field(t.year, 4, '-'), Field(t.month, 2, '-'), Field(t.day, 2, 'T'),
     Field(t.hour, 2, '-'), Field(t.minute, 2, '-'), Field(t.second, 2, 'Z')]
  }

  lemma {:induction false} DigitsStartHere(head: string, digits: string, tail: string)
    requires forall c :: c in digits ==> '0' <= c <= '9'
    ensures DigitsStart(head + "." + digits + tail, |head| + 1 + |digits|) == |head| + 1
  {
    var s := head + "." + digits + tail;
    if digits == "" {
      assert s[|head|] == '.';
    } else {
      var init, last := digits[..|digits| - 1], digits[|digits| - 1];
      assert s == head + "." + init + ([last] + tail);
      assert forall c :: c in init ==> c in digits;
      DigitsStartHere(head, init, [last] + tail);
      assert s[|head| + |digits|] == last && last in digits;
    }
  }

  lemma FractionDrops(head: string, digits: string)
    requires digits != "" && forall c :: c in digits ==> '0' <= c <= '9'
    ensures DropFraction(head + "." + digits + "Z") == head + "Z"
  {
    hide DigitsStart;
    var s := head + "." + digits + "Z";
    DigitsStartHere(head, digits, "Z");
    assert s[|s| - 1] == 'Z' && s[|head|] == '.' && s[..|head|] == head;
  }

  lemma {:induction false} JoinedAppend(fields: seq<Field>, last: Field)
    ensures Joined(fields + [last]) == Joined(fields) + Digits(last.value, last.width) + [last.mark]
  {
    var both := fields + [last];
    if fields == [] {
      assert both[1..] == [];
    } else {
      assert both[0] == fields[0] && both[1..] == fields[1..] + [last];
      JoinedAppend(fields[1..], last);
    }
  }

  function Dashed(fields: seq<Field>): (r: seq<Field>)
    ensures |r| == |fields|
  {
    if fields == [] then []
    else [fields[0].(mark := if fields[0].mark == ':' then '-' else fields[0].mark)] + Dashed(fields[1..])
  }

  lemma DashAppend(a: string, b: string)
    ensures DashColons(a + b) == DashColons(a) + DashColons(b)
  {}

  lemma DashDigits(n: nat, width: nat)
    ensures DashColons(Digits(n, width)) == Digits(n, width)
  {}

  lemma DashField(f: Field, rest: string)
    ensures DashColons(Digits(f.value, f.width) + [f.mark] + rest)
         == Digits(f.value, f.width) + [if f.mark == ':' then '-' else f.mark] + DashColons(rest)
  {
    hide DashColons, Digits;
    DashDigits(f.value, f.width);
    DashAppend(Digits(f.value, f.width) + [f.mark], rest);
    DashAppend(Digits(f.value, f.width), [f.mark]);
    assert DashColons([f.mark]) == [if f.mark == ':' then '-' else f.mark];
  }

  lemma DashedHead(fields: seq<Field>)
    requires fields != []
    ensures Dashed(fields)[0] == fields[0].(mark := if fields[0].mark == ':' then '-' else fields[0].mark)
    ensures Dashed(fields)[1..] == Dashed(fields[1..])
  {}

  lemma {:induction false} DashJoined(fields: seq<Field>)
    ensures DashColons(Joined(fields)) == Joined(Dashed(fields))
  {
    hide DashColons, Digits, Dashed;
    if fields == [] {
      assert DashColons("") == "" && Dashed(fields) == [];
    } else {
      var f := fields[0];
      DashedHead(fields);
      DashJoined(fields[1..]);
      DashField(f, Joined(fields[1..]));
    }
  }

  /** What both replacements leave: `YYYY-MM-DDTHH-MM-SSZ`. */
  lemma StampShape(t: Utc)
    ensures StampNow(t) == Joined(LabelFields(t))
  {
    hide DashColons, DropFraction, Digits, Joined;
    var front := [Field(t.year, 4, '-'), Field(t.month, 2, '-'), Field(t.day, 2, 'T'),
                  Field(t.hour, 2, ':'), Field(t.minute, 2, ':')];
    var dot, end, z := Field(t.second, 2, '.'), Field(t.milli, 3, 'Z'), Field(t.second, 2, 'Z');
    assert IsoString(t) == Joined(front + [dot] + [end]) by {
      assert front + [dot] + [end] == [Field(t.year, 4, '-'), Field(t.month, 2, '-'), Field(t.day, 2, 'T'),
            Field(t.hour, 2, ':'), Field(t.minute, 2, ':'), Field(t.second, 2, '.'), Field(t.milli, 3, 'Z')];
    }
    JoinedAppend(front + [dot], end);
    JoinedAppend(front, dot);
    JoinedAppend(front, z);
    var head := Joined(front) + Digits(t.second, 2);
    assert IsoString(t) == head + "." + Digits(t.milli, 3) + "Z";
    FractionDrops(head, Digits(t.milli, 3));
    DashJoined(front + [z]);
    DashedFront(t);
  }

  lemma DashedFront(t: Utc)
    ensures Dashed([Field(t.year, 4, '-'), Field(t.month, 2, '-'), Field(t.day, 2, 'T'),
                    Field(t.hour, 2, ':'), Field(t.minute, 2, ':')] + [Field(t.second, 2, 'Z')]) == LabelFields(t)
  {
    var c, d, e, f := Field(t.day, 2, 'T'), Field(t.hour, 2, ':'), Field(t.minute, 2, ':'), Field(t.second, 2, 'Z');
    assert [Field(t.year, 4, '-'), Field(t.month, 2, '-'), c, d, e] + [f]
        == [Field(t.year, 4, '-')] + ([Field(t.month, 2, '-')] + [c, d, e, f]);
    DashedCons(Field(t.year, 4, '-'), [Field(t.month, 2, '-')] + [c, d, e, f]);
    DashedCons(Field(t.month, 2, '-'), [c] + [d, e, f]);
    assert [c] + [d, e, f] == [c, d, e, f];
    DashedCons(c, [d] + [e, f]);
    assert [d] + [e, f] == [d, e, f];
    DashedCons(d, [e] + [f]);
    assert [e] + [f] == [e, f];
    DashedCons(e, [f]);
    DashedCons(f, []);
    assert [f] + [] == [f];
  }

  lemma DashedCons(f: Field, rest: seq<Field>)
    ensures Dashed([f] + rest) == [f.(mark := if f.mark == ':' then '-' else f.mark)] + Dashed(rest)
  {
    assert ([f] + rest)[1..] == rest;
  }

  // ----- string order is field order -----

  lemma {:induction false} LessAfterEqualLength(a: string, b: string, x: string, y: string)
    requires |a| == |b|
    ensures Less(a + x, b + y) <==> Less(a, b) || (a == b && Less(x, y))
  {
    if a == "" {
      assert a + x == x && b + y == y;
    } else {
      LessAfterEqualLength(a[1..], b[1..], x, y);
      assert (a + x)[1..] == a[1..] + x && (b + y)[1..] == b[1..] + y;
      assert a == [a[0]] + a[1..] && b == [b[0]] + b[1..];
    }
  }

  lemma OneDigit(m: nat, n: nat)
    requires m < 10 && n < 10
    ensures Less([('0' as int + m) as char], [('0' as int + n) as char]) <==> m < n
    ensures ('0' as int + m) as char == ('0' as int + n) as char ==> m == n
  {}

  lemma {:induction false} DigitsOrder(m: nat, n: nat, width: nat)
    requires m < Pow10(width) && n < Pow10(width)
    ensures Less(Digits(m, width), Digits(n, width)) <==> m < n
    ensures Digits(m, width) == Digits(n, width) ==> m == n
  {
    if width > 0 {
      DigitsOrder(m / 10, n / 10, width - 1);
      OneDigit(m % 10, n % 10);
      var a, b := Digits(m / 10, width - 1), Digits(n / 10, width - 1);
      var c, d := ('0' as int + m % 10) as char, ('0' as int + n % 10) as char;
      LessAfterEqualLength(a, b, [c], [d]);
      AppendEqual(a, b, c, d);
    }
  }

  lemma AppendEqual(a: string, b: string, c: char, d: char)
    requires |a| == |b|
    ensures a + [c] == b + [d] ==> a == b && c == d
  {
    if a + [c] == b + [d] {
      assert (a + [c])[|a|] == c && (b + [d])[|b|] == d;
      assert (a + [c])[..|a|] == a && (b + [d])[..|b|] == b;
    }
  }

  predicate Alike(f: seq<Field>, g: seq<Field>) {
    |f| == |g| && forall i :: 0 <= i < |f| ==>
      f[i].width == g[i].width && f[i].mark == g[i].mark
      && f[i].value < Pow10(f[i].width) && g[i].value < Pow10(f[i].width)
  }

  predicate FieldsBefore(f: seq<Field>, g: seq<Field>)
    requires |f| == |g|
  {
    f != [] && (f[0].value < g[0].value || (f[0].value == g[0].value && FieldsBefore(f[1..], g[1..])))
  }

  lemma {:induction false} JoinedOrder(f: seq<Field>, g: seq<Field>)
    requires Alike(f, g)
    ensures Less(Joined(f), Joined(g)) <==> FieldsBefore(f, g)
  {
    hide Digits, Pow10, Less;
    if f == [] {
      LessTotal("", "");
    } else {
      var a, b := Digits(f[0].value, f[0].width), Digits(g[0].value, g[0].width);
      DigitsOrder(f[0].value, g[0].value, f[0].width);
      var mark := [f[0].mark];
      LessAfterEqualLength(a, b, mark + Joined(f[1..]), mark + Joined(g[1..]));
      LessAfterEqualLength(mark, mark, Joined(f[1..]), Joined(g[1..]));
      LessTotal(mark, mark);
      JoinedOrder(f[1..], g[1..]);
      assert Joined(f) == a + (mark + Joined(f[1..])) && Joined(g) == b + (mark + Joined(g[1..]));
    }
  }

  predicate Before(a: Utc, b: Utc) {
    DateBefore(a, b) || (a.year == b.year && a.month == b.month && a.day == b.day
      && (a.hour < b.hour
          || (a.hour == b.hour && (a.minute < b.minute || (a.minute == b.minute && a.second < b.second)))))
  }

  lemma FieldsBeforeIsBefore(a: Utc, b: Utc)
    ensures FieldsBefore(LabelFields(a), LabelFields(b)) <==> Before(a, b)
  {
    var f, g := LabelFields(a), LabelFields(b);
    assert FieldsBefore(f, g) <==> a.year < b.year || (a.year == b.year && FieldsBefore(f[1..], g[1..]));
    assert FieldsBefore(f[1..], g[1..])
        <==> a.month < b.month || (a.month == b.month && FieldsBefore(f[2..], g[2..])) by {
      assert f[1..][1..] == f[2..] && g[1..][1..] == g[2..];
    }
    assert FieldsBefore(f[2..], g[2..]) <==> a.day < b.day || (a.day == b.day && FieldsBefore(f[3..], g[3..])) by {
      assert f[2..][1..] == f[3..] && g[2..][1..] == g[3..];
    }
    assert FieldsBefore(f[3..], g[3..]) <==> a.hour < b.hour || (a.hour == b.hour && FieldsBefore(f[4..], g[4..])) by {
      assert f[3..][1..] == f[4..] && g[3..][1..] == g[4..];
    }
    assert FieldsBefore(f[4..], g[4..]) <==> a.minute < b.minute || (a.minute == b.minute && a.second < b.second) by {
      assert f[4..][1..] == f[5..] && g[4..][1..] == g[5..];
      assert FieldsBefore(f[5..], g[5..])
          <==> a.second < b.second || (a.second == b.second && FieldsBefore(f[6..], g[6..])) by {
        assert f[5..][1..] == f[6..] && g[5..][1..] == g[6..];
      }
    }
  }

  lemma BeforeIsEarlier(a: Utc, b: Utc)
    requires Valid(a) && Valid(b)
    ensures Before(a, b) <==> Second(a) < Second(b)
  {
    hide Day, Valid, DateBefore;
    ValidClock(a);
    ValidClock(b);
    if DateBefore(a, b) {
      EarlierDate(a, b);
    } else if DateBefore(b, a) {
      EarlierDate(b, a);
      NotBothDates(a, b);
    } else {
      SameDate(a, b);
    }
  }

  lemma ValidClock(t: Utc)
    requires Valid(t)
    ensures t.hour < 24 && t.minute < 60 && t.second < 60
  {}

  lemma NotBothDates(a: Utc, b: Utc)
    requires DateBefore(b, a)
    ensures a.year != b.year || a.month != b.month || a.day != b.day
  {}

  lemma SameDate(a: Utc, b: Utc)
    requires !DateBefore(a, b) && !DateBefore(b, a)
    ensures a.year == b.year && a.month == b.month && a.day == b.day && Day(a) == Day(b)
  {}

  /** Labels compare as strings exactly as their instants compare in time, to the second. */
  lemma StampOrderIsTimeOrder(a: Utc, b: Utc)
    requires Valid(a) && Valid(b)
    ensures Less(StampNow(a), StampNow(b)) <==> Second(a) < Second(b)
    ensures StampNow(a) == StampNow(b) <==> Second(a) == Second(b)
  {
    hide StampNow, Joined, FieldsBefore, Before, Second, Less;
    StampShape(a);
    StampShape(b);
    FieldsAlike(a, b);
    FieldsAlike(b, a);
    JoinedOrder(LabelFields(a), LabelFields(b));
    JoinedOrder(LabelFields(b), LabelFields(a));
    FieldsBeforeIsBefore(a, b);
    FieldsBeforeIsBefore(b, a);
    BeforeIsEarlier(a, b);
    BeforeIsEarlier(b, a);
    LessTotal(StampNow(a), StampNow(b));
  }

  lemma {:induction false} JoinedLength(f: seq<Field>, g: seq<Field>)
    requires Alike(f, g)
    ensures |Joined(f)| == |Joined(g)|
  {
    hide Digits, Pow10;
    if f != [] { JoinedLength(f[1..], g[1..]); }
  }

  /** Keys made of a fixed prefix, the label and a fixed suffix sort in time order too. */
  lemma LabelledKeyOrder(prefix: string, suffix: string, a: Utc, b: Utc)
    requires Valid(a) && Valid(b)
    ensures Less(prefix + StampNow(a) + suffix, prefix + StampNow(b) + suffix) <==> Second(a) < Second(b)
  {
    hide StampNow, Joined, Second, Less, Valid;
    StampOrderIsTimeOrder(a, b);
    FieldsAlike(a, b);
    JoinedLength(LabelFields(a), LabelFields(b));
    StampShape(a);
    StampShape(b);
    LessTotal(prefix, prefix);
    LessTotal(suffix, suffix);
    LessAfterEqualLength(prefix, prefix, StampNow(a), StampNow(b));
    LessAfterEqualLength(prefix + StampNow(a), prefix + StampNow(b), suffix, suffix);
  }

  lemma FieldsAlike(a: Utc, b: Utc)
    requires Valid(a) && Valid(b)
    ensures Alike(LabelFields(a), LabelFields(b))
  {}
}
