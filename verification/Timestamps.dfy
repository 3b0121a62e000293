/**
 Rendered UTC timestamps (section 5.1 of RFC 3339): their text order is the order of instants.

 A timestamp is `YYYY-MM-DDThh:mm:ssZ` of a date in the proleptic Gregorian calendar, years 1 to 9999.
 */
module Timestamps {
  import opened Text

  datatype Stamp = Stamp(year: int, month: int, day: int, hour: int, minute: int, second: int)

  // ---------------------------------------------------------------- the calendar

  predicate IsLeap(y: int) {
    y % 4 == 0 && (y % 100 != 0 || y % 400 == 0)
  }

  function DaysInMonth(y: int, m: int): int {
    if m == 2 then (if IsLeap(y) then 29 else 28) else if m in {4, 6, 9, 11} then 30 else 31
  }

  predicate IsDate(y: int, m: int, d: int) {
    1 <= y <= 9999 && 1 <= m <= 12 && 1 <= d <= DaysInMonth(y, m)
  }

  predicate IsValid(t: Stamp) {
    IsDate(t.year, t.month, t.day) && 0 <= t.hour < 24 && 0 <= t.minute < 60 && 0 <= t.second < 60
  }

  function DaysBeforeYear(y: int): int {
    (y - 1) * 365 + (y - 1) / 4 - (y - 1) / 100 + (y - 1) / 400
  }

  function DaysBeforeMonth(y: int, m: int): int
    requires 1 <= m <= 13
  {
    if m == 1 then 0 else DaysBeforeMonth(y, m - 1) + DaysInMonth(y, m - 1)
  }

  /** Day 1 is the first of January of year 1. */
  function Ordinal(t: Stamp): int
    requires IsValid(t)
  {
    DaysBeforeYear(t.year) + DaysBeforeMonth(t.year, t.month) + t.day
  }

  const DAY := 86400

  function SecondOfDay(t: Stamp): int {
    t.hour * 3600 + t.minute * 60 + t.second
  }

  /** The instant, in seconds. */
  function Instant(t: Stamp): int
    requires IsValid(t)
  {
    Ordinal(t) * DAY + SecondOfDay(t)
  }

  // ---------------------------------------------------------------- rendering and reading

  function Digit(n: int): char
    requires 0 <= n < 10
  {
    '0' + n as char
  }

  function Power(w: nat): nat
    ensures Power(w) > 0
  {
    if w == 0 then 1 else 10 * Power(w - 1)
  }

  function Pad(n: nat, w: nat): (s: string)
    ensures |s| == w
  {
    if w == 0 then "" else Pad(n / 10, w - 1) + [Digit(n % 10)]
  }

  function Render(t: Stamp): string
    requires IsValid(t)
  {
    Pad(t.year, 4) + "-" + Pad(t.month, 2) + "-" + Pad(t.day, 2) + "T" + Pad(t.hour, 2) + ":" + Pad(t.minute, 2) + ":"
      + Pad(t.second, 2) + "Z"
  }

  /** The order `<` of texts, by code points. */
  predicate Less(s: string, t: string) {
    t != "" && (s == "" || s[0] < t[0] || (s[0] == t[0] && Less(s[1..], t[1..])))
  }

  /** The value of a text of digits, None if it holds anything else. */
  function ReadDigits(s: string): Option<nat> {
    if s == "" then Some(0) else
      var init, c := ReadDigits(s[..|s| - 1]), s[|s| - 1];
      if init.None? || !('0' <= c <= '9') then None else Some(init.value * 10 + (c as int - '0' as int))
  }

  /** Reading a timestamp back, as the expiry computation does. */
  function Read(s: string): Option<Stamp> {
    if |s| != 20 || s[4] != '-' || s[7] != '-' || s[10] != 'T' || s[13] != ':' || s[16] != ':'
      || s[19] != 'Z' then None else
      var y, m, d := ReadDigits(s[..4]), ReadDigits(s[5..7]), ReadDigits(s[8..10]);
      var h, n, c := ReadDigits(s[11..13]), ReadDigits(s[14..16]), ReadDigits(s[17..19]);
      if y.None? || m.None? || d.None? || h.None? || n.None? || c.None? then None else
        var t := Stamp(y.value, m.value, d.value, h.value, n.value, c.value);
        if IsValid(t) then Some(t) else None
  }

  // ---------------------------------------------------------------- adding a lifetime

  /** The next day of the calendar, None after the last one. */
  function NextDay(t: Stamp): Option<Stamp>
    requires IsValid(t)
  {
    if t.day < DaysInMonth(t.year, t.month) then Some(t.(day := t.day + 1))
    else if t.month < 12 then Some(t.(month := t.month + 1, day := 1))
    else if t.year < 9999 then Some(t.(year := t.year + 1, month := 1, day := 1))
    else None
  }

  function AtSecond(t: Stamp, n: int): Stamp {
    t.(hour := n / 3600, minute := n / 60 % 60, second := n % 60)
  }

  /** A stamp some seconds later, less than a day; None past the calendar's end. */
  function Later(t: Stamp, seconds: nat): Option<Stamp>
    requires IsValid(t) && seconds < DAY
  {
    var n := SecondOfDay(t) + seconds;
    if n < DAY then Some(AtSecond(t, n)) else
      match NextDay(t)
      case None => None
      case Some(u) => Some(AtSecond(u, n - DAY))
  }

  /** `_compute_expires`: read the text, add the lifetime, render again. */
  function ComputeExpires(acquired: string, ttl: nat): Option<string>
    requires ttl < DAY
  {
    match Read(acquired)
    case None => None
    case Some(t) =>
      match Later(t, ttl)
      case None => None
      case Some(u) => if IsValid(u) then Some(Render(u)) else None
  }

  // ---------------------------------------------------------------- digits in order

  lemma {:induction false} LessConcat(p: string, s: string, q: string, t: string)
    requires |p| == |q|
    ensures Less(p + s, q + t) <==> Less(p, q) || (p == q && Less(s, t))
  {
    if p == "" {
      assert p + s == s && q + t == t;
    } else {
      assert (p + s)[1..] == p[1..] + s && (q + t)[1..] == q[1..] + t;
      LessConcat(p[1..], s, q[1..], t);
      assert p == [p[0]] + p[1..] && q == [q[0]] + q[1..];
    }
  }

  lemma LessOne(a: char, b: char)
    ensures Less([a], [b]) <==> a < b
  {
    assert [a][1..] == "" && [b][1..] == "";
  }

  lemma {:induction false} PadOrder(x: nat, y: nat, w: nat)
    requires x < Power(w) && y < Power(w)
    ensures Less(Pad(x, w), Pad(y, w)) <==> x < y
    ensures Pad(x, w) == Pad(y, w) <==> x == y
  {
    if w > 0 {
      PadOrder(x / 10, y / 10, w - 1);
      LessConcat(Pad(x / 10, w - 1), [Digit(x % 10)], Pad(y / 10, w - 1), [Digit(y % 10)]);
      LessOne(Digit(x % 10), Digit(y % 10));
      if Pad(x, w) == Pad(y, w) {
        assert Pad(x, w)[..w - 1] == Pad(x / 10, w - 1) && Pad(y, w)[..w - 1] == Pad(y / 10, w - 1);
        assert Pad(x, w)[w - 1] == Digit(x % 10) && Pad(y, w)[w - 1] == Digit(y % 10);
      }
    }
  }

  /** A number field in front decides, or leaves it to the rest. */
  lemma FieldOrder(x: nat, y: nat, w: nat, s: string, t: string)
    requires x < Power(w) && y < Power(w)
    ensures Less(Pad(x, w) + s, Pad(y, w) + t) <==> x < y || (x == y && Less(s, t))
  {
    PadOrder(x, y, w);
    LessConcat(Pad(x, w), s, Pad(y, w), t);
  }

  lemma MarkOrder(c: char, s: string, t: string)
    ensures Less([c] + s, [c] + t) <==> Less(s, t)
  {
    LessConcat([c], s, [c], t);
    LessOne(c, c);
  }

  predicate FieldsLess(a: Stamp, b: Stamp) {
    || a.year < b.year
    || (a.year == b.year && (a.month < b.month
    || (a.month == b.month && (a.day < b.day
    || (a.day == b.day && (a.hour < b.hour
    || (a.hour == b.hour && (a.minute < b.minute
    || (a.minute == b.minute && a.second < b.second)))))))))
  }

  function TimeText(t: Stamp): string
    requires IsValid(t)
  {
    Pad(t.hour, 2) + (":" + (Pad(t.minute, 2) + (":" + (Pad(t.second, 2) + "Z"))))
  }

  lemma RenderParts(t: Stamp)
    requires IsValid(t)
    ensures Render(t) == Pad(t.year, 4) + ("-" + (Pad(t.month, 2) + ("-" + (Pad(t.day, 2) + ("T" + TimeText(t))))))
  {
  }

  lemma Powers()
    ensures Power(2) == 100 && Power(4) == 10000
  {
    assert Power(1) == 10;
    assert Power(3) == 1000;
  }

  lemma TimeOrder(a: Stamp, b: Stamp)
    requires IsValid(a) && IsValid(b)
    ensures Less(TimeText(a), TimeText(b)) <==>
              a.hour < b.hour
                || (a.hour == b.hour && (a.minute < b.minute || (a.minute == b.minute && a.second < b.second)))
  {
    Powers();
    var sa, sb := Pad(a.second, 2) + "Z", Pad(b.second, 2) + "Z";
    var ma, mb := Pad(a.minute, 2) + (":" + sa), Pad(b.minute, 2) + (":" + sb);
    FieldOrder(a.second, b.second, 2, "Z", "Z");
    LessOne('Z', 'Z');
    MarkOrder(':', sa, sb);
    FieldOrder(a.minute, b.minute, 2, ":" + sa, ":" + sb);
    MarkOrder(':', ma, mb);
    FieldOrder(a.hour, b.hour, 2, ":" + ma, ":" + mb);
  }

  lemma TextOrder(a: Stamp, b: Stamp)
    requires IsValid(a) && IsValid(b)
    ensures Less(Render(a), Render(b)) <==> FieldsLess(a, b)
  {
    Powers();
    RenderParts(a);
    RenderParts(b);
    TimeOrder(a, b);
    var da, db := Pad(a.day, 2) + ("T" + TimeText(a)), Pad(b.day, 2) + ("T" + TimeText(b));
    var ma, mb := Pad(a.month, 2) + ("-" + da), Pad(b.month, 2) + ("-" + db);
    MarkOrder('T', TimeText(a), TimeText(b));
    FieldOrder(a.day, b.day, 2, "T" + TimeText(a), "T" + TimeText(b));
    MarkOrder('-', da, db);
    FieldOrder(a.month, b.month, 2, "-" + da, "-" + db);
    MarkOrder('-', ma, mb);
    FieldOrder(a.year, b.year, 4, "-" + ma, "-" + mb);
  }

  // ---------------------------------------------------------------- the calendar in order

  lemma YearLength(y: int)
    requires 1 <= y
    ensures DaysBeforeYear(y + 1) == DaysBeforeYear(y) + if IsLeap(y) then 366 else 365
  {
    FourthsStep(y);
    HundredthsStep(y);
    FourHundredthsStep(y);
    Centuries(y);
  }

  lemma Centuries(y: int)
    ensures y % 400 == 0 ==> y % 100 == 0
    ensures y % 100 == 0 ==> y % 4 == 0
  {
    if y % 400 == 0 { Hundredfold(y / 400); }
    if y % 100 == 0 { Fourfold(y / 100); }
  }

  lemma Hundredfold(k: int)
    ensures 400 * k % 100 == 0
  {
  }

  lemma Fourfold(k: int)
    ensures 100 * k % 4 == 0
  {
  }

  lemma FourthsStep(y: int)
    requires 1 <= y
    ensures y / 4 == (y - 1) / 4 + if y % 4 == 0 then 1 else 0
  {
  }

  lemma HundredthsStep(y: int)
    requires 1 <= y
    ensures y / 100 == (y - 1) / 100 + if y % 100 == 0 then 1 else 0
  {
  }

  lemma FourHundredthsStep(y: int)
    requires 1 <= y
    ensures y / 400 == (y - 1) / 400 + if y % 400 == 0 then 1 else 0
  {
  }

  lemma {:induction false} YearsGrow(y: int, z: int)
    requires 1 <= y <= z
    ensures DaysBeforeYear(y) <= DaysBeforeYear(z)
    decreases z - y
  {
    if y < z {
      YearLength(y);
      YearsGrow(y + 1, z);
    }
  }

  lemma {:induction false} MonthsGrow(y: int, m: int, n: int)
    requires 1 <= m <= n <= 13
    ensures DaysBeforeMonth(y, m) <= DaysBeforeMonth(y, n)
    ensures m < n ==> DaysBeforeMonth(y, m) + DaysInMonth(y, m) <= DaysBeforeMonth(y, n)
  {
    if m < n {
      MonthsGrow(y, m, n - 1);
    }
  }

  lemma YearInDays(y: int)
    ensures DaysBeforeMonth(y, 13) == if IsLeap(y) then 366 else 365
  {
    var leap := if IsLeap(y) then 1 else 0;
    assert DaysBeforeMonth(y, 2) == 31 && DaysBeforeMonth(y, 3) == 59 + leap;
    assert DaysBeforeMonth(y, 4) == 90 + leap && DaysBeforeMonth(y, 5) == 120 + leap;
    assert DaysBeforeMonth(y, 6) == 151 + leap && DaysBeforeMonth(y, 7) == 181 + leap;
    assert DaysBeforeMonth(y, 8) == 212 + leap && DaysBeforeMonth(y, 9) == 243 + leap;
    assert DaysBeforeMonth(y, 10) == 273 + leap && DaysBeforeMonth(y, 11) == 304 + leap;
    assert DaysBeforeMonth(y, 12) == 334 + leap;
  }

  lemma DatesInOrder(a: Stamp, b: Stamp)
    requires IsValid(a) && IsValid(b)
    requires a.year < b.year || (a.year == b.year && (a.month < b.month || (a.month == b.month && a.day < b.day)))
    ensures Ordinal(a) < Ordinal(b)
  {
    if a.year < b.year {
      YearInDays(a.year);
      MonthsGrow(a.year, a.month, 13);
      YearLength(a.year);
      YearsGrow(a.year + 1, b.year);
      MonthsGrow(b.year, 1, b.month);
    } else if a.month < b.month {
      MonthsGrow(a.year, a.month, b.month);
    }
  }

  lemma FieldsInOrder(a: Stamp, b: Stamp)
    requires IsValid(a) && IsValid(b) && FieldsLess(a, b)
    ensures Instant(a) < Instant(b)
  {
    if a.year == b.year && a.month == b.month && a.day == b.day {
      assert SecondOfDay(a) < SecondOfDay(b);
    } else {
      DatesInOrder(a, b);
      assert 0 <= SecondOfDay(a) < DAY && 0 <= SecondOfDay(b) < DAY;
    }
  }

  /** The text order of rendered timestamps is the order of their instants; equal texts are equal instants. */
  lemma TextOrderIsTimeOrder(a: Stamp, b: Stamp)
    requires IsValid(a) && IsValid(b)
    ensures Less(Render(a), Render(b)) <==> Instant(a) < Instant(b)
    ensures Render(a) == Render(b) <==> Instant(a) == Instant(b)
    ensures Instant(a) == Instant(b) <==> a == b
  {
    TextOrder(a, b);
    TextOrder(b, a);
    if FieldsLess(a, b) {
      FieldsInOrder(a, b);
    } else if FieldsLess(b, a) {
      FieldsInOrder(b, a);
    }
    if Render(a) == Render(b) {
      TextOrder(a, a);
    }
  }

  // ---------------------------------------------------------------- reading back, and lifetimes

  lemma {:induction false} ReadPad(n: nat, w: nat)
    requires n < Power(w)
    ensures ReadDigits(Pad(n, w)) == Some(n)
  {
    if w > 0 {
      ReadPad(n / 10, w - 1);
      assert Pad(n, w)[..w - 1] == Pad(n / 10, w - 1);
    }
  }

  lemma ReadRender(t: Stamp)
    requires IsValid(t)
    ensures Read(Render(t)) == Some(t)
  {
    Powers();
    ReadPad(t.year, 4);
    ReadPad(t.month, 2);
    ReadPad(t.day, 2);
    ReadPad(t.hour, 2);
    ReadPad(t.minute, 2);
    ReadPad(t.second, 2);
    hide Pad, ReadDigits;
    Fields(Pad(t.year, 4), Pad(t.month, 2), Pad(t.day, 2), Pad(t.hour, 2), Pad(t.minute, 2), Pad(t.second, 2));
  }

  lemma Fields(y: string, m: string, d: string, h: string, n: string, c: string)
    requires |y| == 4 && |m| == |d| == |h| == |n| == |c| == 2
    ensures var s := y + "-" + m + "-" + d + "T" + h + ":" + n + ":" + c + "Z";
            && |s| == 20 && s[4] == '-' && s[7] == '-' && s[10] == 'T' && s[13] == ':' && s[16] == ':' && s[19] == 'Z'
            && s[..4] == y && s[5..7] == m && s[8..10] == d && s[11..13] == h && s[14..16] == n && s[17..19] == c
  {
    var s := y + "-" + m + "-" + d + "T" + h + ":" + n + ":" + c + "Z";
    assert s[5] == m[0] && s[6] == m[1];
    assert s[8] == d[0] && s[9] == d[1];
    assert s[11] == h[0] && s[12] == h[1];
    assert s[14] == n[0] && s[15] == n[1];
    assert s[17] == c[0] && s[18] == c[1];
    Pair(s, 5, m);
    Pair(s, 8, d);
    Pair(s, 11, h);
    Pair(s, 14, n);
    Pair(s, 17, c);
  }

  lemma Pair(s: string, i: nat, p: string)
    requires |p| == 2 && i + 2 <= |s| && s[i] == p[0] && s[i + 1] == p[1]
    ensures s[i..i + 2] == p
  {
  }

  lemma NextDayIsNext(t: Stamp)
    requires IsValid(t)
    ensures NextDay(t).Some? ==> IsValid(NextDay(t).value) && Ordinal(NextDay(t).value) == Ordinal(t) + 1
    ensures NextDay(t).None? <==> t.year == 9999 && t.month == 12 && t.day == 31
  {
    if t.day == DaysInMonth(t.year, t.month) && t.month == 12 {
      YearInDays(t.year);
      YearLength(t.year);
    }
  }

  lemma AtSecondIs(t: Stamp, n: int)
    requires IsValid(t) && 0 <= n < DAY
    ensures IsValid(AtSecond(t, n)) && Ordinal(AtSecond(t, n)) == Ordinal(t) && SecondOfDay(AtSecond(t, n)) == n
  {
  }

  /** Adding a lifetime to the fields, with every carry, adds it to the instant. */
  lemma LaterIsLater(t: Stamp, seconds: nat)
    requires IsValid(t) && seconds < DAY
    ensures Later(t, seconds).Some? ==>
              IsValid(Later(t, seconds).value) && Instant(Later(t, seconds).value) == Instant(t) + seconds
    ensures Later(t, seconds).None? <==> Instant(t) + seconds > Instant(Stamp(9999, 12, 31, 23, 59, 59))
  {
    hide Ordinal, SecondOfDay, AtSecond;
    var n := SecondOfDay(t) + seconds;
    SecondInDay(t);
    if n < DAY {
      SameDay(t, n);
    } else {
      NextDayIsNext(t);
      hide NextDay;
      if NextDay(t).Some? {
        SameDay(NextDay(t).value, n - DAY);
      } else {
        LastInstant(t);
      }
    }
  }

  lemma SecondInDay(t: Stamp)
    requires IsValid(t)
    ensures 0 <= SecondOfDay(t) < DAY
  {
  }

  lemma SameDay(t: Stamp, n: int)
    requires IsValid(t) && 0 <= n < DAY
    ensures IsValid(AtSecond(t, n))
    ensures Instant(AtSecond(t, n)) == Ordinal(t) * DAY + n <= Instant(Stamp(9999, 12, 31, 23, 59, 59))
  {
    AtSecondIs(t, n);
    LastInstant(AtSecond(t, n));
  }

  lemma LastInstant(t: Stamp)
    requires IsValid(t)
    ensures var last := Stamp(9999, 12, 31, 23, 59, 59);
            IsValid(last) && Instant(t) <= Instant(last) && SecondOfDay(last) == DAY - 1
            && (t.year == 9999 && t.month == 12 && t.day == 31 ==> Ordinal(t) == Ordinal(last))
  {
    var last := Stamp(9999, 12, 31, 23, 59, 59);
    if t != last {
      FieldsInOrder(t, last);
    }
  }

  /**
   The text guards of the lease calls decide the intended comparisons: a lease is expired at `now` exactly when its
   expiry instant has come, and a renewal advances exactly when `now` plus its lifetime lies past the stored expiry.
   */
  lemma GuardsDecideInstants(now: Stamp, expires: Stamp, ttl: nat)
    requires IsValid(now) && IsValid(expires) && ttl < DAY
    ensures !Less(Render(now), Render(expires)) <==> Instant(expires) <= Instant(now)
    ensures var renewed := ComputeExpires(Render(now), ttl);
            && (renewed.None? <==> Instant(now) + ttl > Instant(Stamp(9999, 12, 31, 23, 59, 59)))
            && (renewed.Some? ==> (Less(Render(expires), renewed.value) <==> Instant(expires) < Instant(now) + ttl)
                                  && Read(renewed.value).Some?
                                  && Instant(Read(renewed.value).value) == Instant(now) + ttl)
  {
    TextOrderIsTimeOrder(now, expires);
    ReadRender(now);
    LaterIsLater(now, ttl);
    if Later(now, ttl).Some? {
      TextOrderIsTimeOrder(expires, Later(now, ttl).value);
      ReadRender(Later(now, ttl).value);
    }
  }
}
