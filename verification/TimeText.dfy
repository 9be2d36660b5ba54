/** UTC timestamps as the text the gateway stores and compares.

    A timestamp is a number of nanoseconds since the start of year 0.  `Format` renders it the way Go's
    RFC3339Nano layout does: fixed-width date and time (section 5.6 of RFC 3339), then the fraction of the second
    with its trailing zeros dropped, then "Z".  SQLite compares the stored text byte by byte, so the order that the
    queue obeys is `TextLE`, not the order of the numbers.  The last lemmas of the module say exactly how the two
    differ. */
module TimeText {

  const NANOS_PER_SECOND: nat := 1_000_000_000
  const SECONDS_PER_DAY: nat := 86_400

  // ---------- byte order on strings ----------

  predicate TextLess(a: string, b: string) {
    b != "" && (a == "" || a[0] < b[0] || (a[0] == b[0] && TextLess(a[1..], b[1..])))
  }

  predicate TextLE(a: string, b: string) {
    a == b || TextLess(a, b)
  }

  lemma {:induction false} TextOrderIsTotal(a: string, b: string)
    ensures TextLess(a, b) || a == b || TextLess(b, a)
    ensures !(TextLess(a, b) && TextLess(b, a))
    ensures !TextLess(a, a)
    ensures TextLE(a, b) <==> !TextLess(b, a)
  {
    if a != "" && b != "" && a[0] == b[0] {
      TextOrderIsTotal(a[1..], b[1..]);
      assert a == [a[0]] + a[1..] && b == [b[0]] + b[1..];
    }
    if a != "" && a != b {
      TextOrderIsTotal(a[1..], a[1..]);
    } else if a != "" {
      TextOrderIsTotal(a[1..], a[1..]);
    }
  }

  /** Fixed-width fields compare first; what follows them matters only when they agree. */
  lemma {:induction false} FixedWidthOrder(a: string, b: string, x: string, y: string)
    requires |a| == |b|
    ensures TextLess(a + x, b + y) <==> TextLess(a, b) || (a == b && TextLess(x, y))
  {
    if a == "" {
      assert a + x == x && b + y == y;
    } else {
      assert (a + x)[1..] == a[1..] + x && (b + y)[1..] == b[1..] + y;
      assert (a + x)[0] == a[0] && (b + y)[0] == b[0];
      assert a == [a[0]] + a[1..] && b == [b[0]] + b[1..];
      FixedWidthOrder(a[1..], b[1..], x, y);
    }
  }

  // ---------- decimal digits ----------

  function Pow10(width: nat): (p: nat)
    ensures p > 0
  {
    if width == 0 then 1 else 10 * Pow10(width - 1)
  }

  function Digit(d: nat): (c: char)
    requires d < 10
    ensures '0' <= c <= '9'
  {
    '0' + d as char
  }

  /** The last `width` decimal digits of n, zero padded. */
  function Digits(n: nat, width: nat): (s: string)
    ensures |s| == width
    ensures forall i :: 0 <= i < |s| ==> '0' <= s[i] <= '9'
  {
    if width == 0 then "" else Digits(n / 10, width - 1) + [Digit(n % 10)]
  }

  lemma {:induction false} DigitsOrder(n: nat, m: nat, width: nat)
    requires n < Pow10(width) && m < Pow10(width)
    ensures TextLess(Digits(n, width), Digits(m, width)) <==> n < m
    ensures Digits(n, width) == Digits(m, width) <==> n == m
  {
    hide TextLess;
    if width > 0 {
      DigitsOrder(n / 10, m / 10, width - 1);
      OneMoreDigit(Digits(n / 10, width - 1), Digits(m / 10, width - 1), n % 10, m % 10);
    } else {
      NothingLess();
    }
  }

  lemma NothingLess()
    ensures !TextLess("", "")
  {
  }

  lemma OneMoreDigit(p: string, q: string, x: nat, y: nat)
    requires |p| == |q| && x < 10 && y < 10
    ensures TextLess(p + [Digit(x)], q + [Digit(y)]) <==> TextLess(p, q) || (p == q && x < y)
    ensures p + [Digit(x)] == q + [Digit(y)] <==> p == q && x == y
  {
    var (c, d) := ([Digit(x)], [Digit(y)]);
    FixedWidthOrder(p, q, c, d);
    assert TextLess(c, d) <==> x < y by {
      assert c[1..] == "" && d[1..] == "";
    }
    hide TextLess;
    assert p == (p + c)[..|p|] && q == (q + d)[..|q|];
    assert (p + c)[|p|] == Digit(x) && (q + d)[|q|] == Digit(y);
  }

  /** Digits with the trailing zeros dropped. */
  function TrimZeros(s: string): string {
    if s == "" then ""
    else
      var rest := TrimZeros(s[1..]);
      if rest == "" && s[0] == '0' then "" else [s[0]] + rest
  }

  lemma SharedHeadPrefix(c: char, a: string, b: string)
    ensures [c] + a < [c] + b <==> a < b
  {
    assert ([c] + a)[1..] == a && ([c] + b)[1..] == b;
    if a < b {
      assert [c] + a == ([c] + b)[..|a| + 1];
    }
  }

  /** Dropping trailing zeros reverses the order of two digit strings exactly when one becomes a prefix of the other:
      the closing 'Z' sorts above every digit. */
  lemma {:induction false} TrimmedOrder(x: string, y: string)
    requires |x| == |y| && TextLess(x, y)
    requires forall i :: 0 <= i < |x| ==> '0' <= x[i] <= '9' && '0' <= y[i] <= '9'
    ensures TrimZeros(y) != "" && TrimZeros(x) != TrimZeros(y)
    ensures TrimZeros(y)[0] <= '9'
    ensures !(TrimZeros(y) < TrimZeros(x))
    ensures TextLess(TrimZeros(x) + "Z", TrimZeros(y) + "Z") <==> !(TrimZeros(x) < TrimZeros(y))
  {
    var f, g := TrimZeros(x), TrimZeros(y);
    if x[0] == y[0] {
      TrimmedOrder(x[1..], y[1..]);
      var f', g' := TrimZeros(x[1..]), TrimZeros(y[1..]);
      assert g == [y[0]] + g';
      if f != "" {
        assert f == [x[0]] + f';
        assert (f + "Z")[1..] == f' + "Z" && (g + "Z")[1..] == g' + "Z";
        SharedHeadPrefix(x[0], f', g');
        SharedHeadPrefix(x[0], g', f');
        assert f[1..] == f' && g[1..] == g';
      } else {
        assert (f + "Z")[0] == 'Z' && (g + "Z")[0] == y[0];
      }
    } else {
      assert g[0] == y[0];
      assert (g + "Z")[0] == y[0];
      if f != "" {
        assert (f + "Z")[0] == x[0] && f[0] == x[0];
      }
    }
  }

  // ---------- calendar ----------

  predicate IsLeap(year: nat) {
    year % 4 == 0 && (year % 100 != 0 || year % 400 == 0)
  }

  function DaysInYear(year: nat): nat {
    if IsLeap(year) then 366 else 365
  }

  function DaysInMonth(year: nat, month: nat): nat {
    if month == 2 then (if IsLeap(year) then 29 else 28)
    else if month in {4, 6, 9, 11} then 30
    else 31
  }

  /** The year that `day` days after the start of `year` fall in, and the day within it. */
  function YearOf(year: nat, day: nat): (r: (nat, nat))
    ensures r.0 >= year && r.1 < DaysInYear(r.0)
    decreases day
  {
    if day < DaysInYear(year) then (year, day) else YearOf(year + 1, day - DaysInYear(year))
  }

  /** The month that `day` days after the start of `month` fall in, and the day within it, both as printed. */
  function MonthOf(year: nat, month: nat, day: nat): (r: (nat, nat))
    requires 1 <= month <= 12
    ensures month <= r.0 <= 12 && r.1 >= 1
    decreases 12 - month
  {
    if month == 12 || day < DaysInMonth(year, month) then (month, day + 1)
    else MonthOf(year, month + 1, day - DaysInMonth(year, month))
  }

  function DaysBeforeYear(year: nat): nat {
    if year == 0 then 0 else DaysBeforeYear(year - 1) + DaysInYear(year - 1)
  }

  function DaysBeforeMonth(year: nat, month: nat): nat
    requires 1 <= month <= 13
  {
    if month == 1 then 0 else DaysBeforeMonth(year, month - 1) + DaysInMonth(year, month - 1)
  }

  /** The calendar is read back correctly: year and day of year add up to the day counted. */
  lemma {:induction false} YearOfCountsDays(year: nat, day: nat)
    ensures var (y, d) := YearOf(year, day); DaysBeforeYear(y) + d == DaysBeforeYear(year) + day
    decreases day
  {
    if day >= DaysInYear(year) {
      YearOfCountsDays(year + 1, day - DaysInYear(year));
    }
  }

  lemma {:induction false} MonthOfCountsDays(year: nat, month: nat, day: nat)
    requires 1 <= month <= 12 && DaysBeforeMonth(year, month) + day < DaysInYear(year)
    ensures var (m, d) := MonthOf(year, month, day);
            && DaysBeforeMonth(year, m) + (d - 1) == DaysBeforeMonth(year, month) + day
            && 1 <= d <= DaysInMonth(year, m)
    decreases 12 - month
  {
    MonthsFillTheYear(year);
    if month < 12 && day >= DaysInMonth(year, month) {
      MonthOfCountsDays(year, month + 1, day - DaysInMonth(year, month));
    }
  }

  lemma MonthsFillTheYear(year: nat)
    ensures DaysBeforeMonth(year, 12) + DaysInMonth(year, 12) == DaysInYear(year)
  {
    var d := m requires 1 <= m <= 12 => DaysBeforeMonth(year, m + 1) - DaysBeforeMonth(year, m);
    assert d(1) == 31 && d(3) == 31 && d(4) == 30 && d(5) == 31 && d(6) == 30;
    assert DaysBeforeMonth(year, 3) == 31 + DaysInMonth(year, 2);
    assert DaysBeforeMonth(year, 6) == DaysBeforeMonth(year, 3) + 92;
    assert d(7) == 31 && d(8) == 31 && d(9) == 30 && d(10) == 31 && d(11) == 30;
    assert DaysBeforeMonth(year, 9) == DaysBeforeMonth(year, 6) + 92;
    assert DaysBeforeMonth(year, 12) == DaysBeforeMonth(year, 9) + 91;
  }

  lemma {:induction false} EarlierYearsCountFewerDays(y: nat, z: nat)
    requires y < z
    ensures DaysBeforeYear(y) + DaysInYear(y) <= DaysBeforeYear(z)
  {
    if y + 1 < z {
      EarlierYearsCountFewerDays(y, z - 1);
    }
  }

  lemma {:induction false} EarlierMonthsCountFewerDays(year: nat, m: nat, n: nat)
    requires 1 <= m < n <= 13
    ensures DaysBeforeMonth(year, m) + DaysInMonth(year, m) <= DaysBeforeMonth(year, n)
  {
    if m + 1 < n {
      EarlierMonthsCountFewerDays(year, m, n - 1);
    }
  }

  // ---------- rendering ----------

  function SecondsOf(t: nat): nat { t / NANOS_PER_SECOND }

  function YearOfInstant(t: nat): nat { YearOf(0, SecondsOf(t) / SECONDS_PER_DAY).0 }

  /** Timestamps whose year prints with four digits. */
  predicate FourDigitYear(t: nat) { YearOfInstant(t) < 10_000 }

  function YearText(year: nat): string {
    if year < 10_000 then Digits(year, 4) else YearText(year / 10) + [Digit(year % 10)]
  }

  function DateText(day: nat): string {
    var (year, dayOfYear) := YearOf(0, day);
    var (month, dayOfMonth) := MonthOf(year, 1, dayOfYear);
    YearText(year) + ("-" + Digits(month, 2) + ("-" + Digits(dayOfMonth, 2)))
  }

  function ClockText(second: nat): (s: string)
    ensures |s| == 9
  {
    "T" + Digits(second / 3600, 2) + (":" + Digits(second / 60 % 60, 2) + (":" + Digits(second % 60, 2)))
  }

  /** The digits of the fraction that are printed; empty for a whole second. */
  function FractionText(t: nat): string {
    TrimZeros(Digits(t % NANOS_PER_SECOND, 9))
  }

  function FractionSuffix(f: string): string {
    if f == "" then "Z" else "." + f + "Z"
  }

  /** Everything before the fraction. */
  function SecondText(seconds: nat): string {
    DateText(seconds / SECONDS_PER_DAY) + ClockText(seconds % SECONDS_PER_DAY)
  }

  function Format(t: nat): string {
    SecondText(SecondsOf(t)) + FractionSuffix(FractionText(t))
  }

  // ---------- order of the fields ----------

  ghost predicate IsStamp(s: string) {
    exists t: nat :: s == Format(t)
  }

  lemma TwoDigitOrder(n: nat, m: nat)
    requires n < 100 && m < 100
    ensures TextLess(Digits(n, 2), Digits(m, 2)) <==> n < m
    ensures Digits(n, 2) == Digits(m, 2) <==> n == m
  {
    assert Pow10(1) == 10 && Pow10(2) == 100;
    DigitsOrder(n, m, 2);
  }

  /** A one-character separator followed by two digits, then a rest of any kind. */
  lemma TaggedFieldOrder(tag: string, n: nat, m: nat, x: string, y: string)
    requires |tag| == 1 && n < 100 && m < 100
    ensures TextLess(tag + Digits(n, 2) + x, tag + Digits(m, 2) + y) <==> n < m || (n == m && TextLess(x, y))
  {
    FixedWidthOrder(tag, tag, Digits(n, 2), Digits(m, 2));
    FixedWidthOrder(tag + Digits(n, 2), tag + Digits(m, 2), x, y);
    TextOrderIsTotal(tag, tag);
    TwoDigitOrder(n, m);
    if tag + Digits(n, 2) == tag + Digits(m, 2) {
      assert (tag + Digits(n, 2))[1..] == Digits(n, 2) && (tag + Digits(m, 2))[1..] == Digits(m, 2);
    }
  }

  lemma ClockOrder(s: nat, t: nat)
    requires s < SECONDS_PER_DAY && t < SECONDS_PER_DAY
    ensures TextLess(ClockText(s), ClockText(t)) <==> s < t
  {
    var (sm, tm) := (s / 60 % 60, t / 60 % 60);
    var (x, y) := (":" + Digits(s % 60, 2), ":" + Digits(t % 60, 2));
    TaggedFieldOrder(":", s % 60, t % 60, "", "");
    assert x + "" == x && y + "" == y;
    TaggedFieldOrder(":", sm, tm, x, y);
    TaggedFieldOrder("T", s / 3600, t / 3600, ":" + Digits(sm, 2) + x, ":" + Digits(tm, 2) + y);
    assert ClockText(s) == "T" + Digits(s / 3600, 2) + (":" + Digits(sm, 2) + x);
    assert ClockText(t) == "T" + Digits(t / 3600, 2) + (":" + Digits(tm, 2) + y);
    ClockFieldsDecide(s, t);
  }

  lemma ClockFields(s: nat)
    ensures s == 3600 * (s / 3600) + 60 * (s / 60 % 60) + s % 60
    ensures 0 <= s / 60 % 60 < 60 && 0 <= s % 60 < 60
  {
    var minutes := s / 60;
    assert s == 60 * minutes + s % 60 && minutes == 60 * (minutes / 60) + minutes % 60;
    assert 3600 * (minutes / 60) <= s < 3600 * (minutes / 60) + 3600;
  }

  lemma ClockFieldsDecide(s: nat, t: nat)
    ensures s < t <==> || s / 3600 < t / 3600
                       || (s / 3600 == t / 3600
                           && (s / 60 % 60 < t / 60 % 60 || (s / 60 % 60 == t / 60 % 60 && s % 60 < t % 60)))
  {
    ClockFields(s);
    ClockFields(t);
    FieldsDecide(s / 3600, s / 60 % 60, s % 60, t / 3600, t / 60 % 60, t % 60);
  }

  lemma FieldsDecide(h: nat, m: nat, x: nat, h': nat, m': nat, x': nat)
    requires m < 60 && x < 60 && m' < 60 && x' < 60
    ensures 3600 * h + 60 * m + x < 3600 * h' + 60 * m' + x' <==>
            h < h' || (h == h' && (m < m' || (m == m' && x < x')))
  {
  }

  lemma DateFields(day: nat)
    ensures var (y, d) := YearOf(0, day);
            var (m, dm) := MonthOf(y, 1, d);
            && DaysBeforeYear(y) + DaysBeforeMonth(y, m) + (dm - 1) == day
            && DaysBeforeMonth(y, m) + (dm - 1) < DaysInYear(y)
            && 1 <= dm <= DaysInMonth(y, m) <= 31
  {
    YearOfCountsDays(0, day);
    MonthOfCountsDays(YearOf(0, day).0, 1, YearOf(0, day).1);
  }

  /** A later day has a later year, or the same year and a later month, or the same month and a later day of it. */
  lemma DateFieldsGrow(a: nat, b: nat)
    requires a < b
    ensures var ((ya, da), (yb, db)) := (YearOf(0, a), YearOf(0, b));
            var ((ma, dma), (mb, dmb)) := (MonthOf(ya, 1, da), MonthOf(yb, 1, db));
            ya < yb || (ya == yb && (ma < mb || (ma == mb && dma < dmb)))
  {
    hide YearOf, MonthOf, DaysBeforeMonth, DaysInMonth;
    DateFields(a);
    DateFields(b);
    var (ya, yb) := (YearOf(0, a).0, YearOf(0, b).0);
    var (ma, mb) := (MonthOf(ya, 1, YearOf(0, a).1).0, MonthOf(yb, 1, YearOf(0, b).1).0);
    if yb < ya { EarlierYearsCountFewerDays(yb, ya); }
    if ya == yb && mb < ma { EarlierMonthsCountFewerDays(ya, mb, ma); }
  }

  lemma DateOrder(a: nat, b: nat)
    requires a < b && YearOf(0, b).0 < 10_000
    ensures |DateText(a)| == |DateText(b)| == 10 && TextLess(DateText(a), DateText(b))
  {
    hide YearOf, MonthOf, Digits, TextLess, DaysInYear, DaysInMonth, DaysBeforeYear, DaysBeforeMonth;
    DateFields(a);
    DateFields(b);
    DateFieldsGrow(a, b);
    var ((ya, da), (yb, db)) := (YearOf(0, a), YearOf(0, b));
    var ((ma, dma), (mb, dmb)) := (MonthOf(ya, 1, da), MonthOf(yb, 1, db));
    assert Pow10(1) == 10 && Pow10(2) == 100 && Pow10(3) == 1000 && Pow10(4) == 10_000;
    DigitsOrder(ya, yb, 4);
    var (x, y) := ("-" + Digits(dma, 2), "-" + Digits(dmb, 2));
    TaggedFieldOrder("-", dma, dmb, "", "");
    assert x + "" == x && y + "" == y;
    TaggedFieldOrder("-", ma, mb, x, y);
    FixedWidthOrder(Digits(ya, 4), Digits(yb, 4), "-" + Digits(ma, 2) + x, "-" + Digits(mb, 2) + y);
  }

  lemma DateTextWidth(day: nat)
    requires YearOf(0, day).0 < 10_000
    ensures |DateText(day)| == 10
  {
  }

  lemma SecondOrder(s: nat, t: nat)
    requires s < t && YearOf(0, t / SECONDS_PER_DAY).0 < 10_000
    ensures |SecondText(s)| == |SecondText(t)| && TextLess(SecondText(s), SecondText(t))
  {
    var (x, y) := (ClockText(s % SECONDS_PER_DAY), ClockText(t % SECONDS_PER_DAY));
    if s / SECONDS_PER_DAY < t / SECONDS_PER_DAY {
      DateOrder(s / SECONDS_PER_DAY, t / SECONDS_PER_DAY);
    } else {
      DateTextWidth(t / SECONDS_PER_DAY);
      ClockOrder(s % SECONDS_PER_DAY, t % SECONDS_PER_DAY);
    }
    FixedWidthOrder(DateText(s / SECONDS_PER_DAY), DateText(t / SECONDS_PER_DAY), x, y);
  }

  /** Different whole seconds: the text agrees with time, whatever the fractions are. */
  lemma EarlierSecondReadsEarlier(a: nat, b: nat)
    requires SecondsOf(a) < SecondsOf(b) && FourDigitYear(b)
    ensures TextLess(Format(a), Format(b))
  {
    SecondOrder(SecondsOf(a), SecondsOf(b));
    FixedWidthOrder(SecondText(SecondsOf(a)), SecondText(SecondsOf(b)),
                    FractionSuffix(FractionText(a)), FractionSuffix(FractionText(b)));
  }

  lemma FractionOrder(a: nat, b: nat)
    requires a < b && SecondsOf(a) == SecondsOf(b)
    ensures TextLess(Digits(a % NANOS_PER_SECOND, 9), Digits(b % NANOS_PER_SECOND, 9))
  {
    assert Pow10(3) == 1000 && Pow10(5) == 100_000 && Pow10(7) == 10_000_000 && Pow10(9) == NANOS_PER_SECOND;
    DigitsOrder(a % NANOS_PER_SECOND, b % NANOS_PER_SECOND, 9);
  }

  /** Same second: the earlier timestamp reads earlier unless its printed fraction is a proper prefix of the later's. */
  lemma SameSecondOrder(a: nat, b: nat)
    requires a < b && SecondsOf(a) == SecondsOf(b)
    ensures TextLess(Format(a), Format(b)) <==> !(FractionText(a) < FractionText(b))
    ensures FractionText(a) != FractionText(b) && Format(a) != Format(b)
    ensures !(FractionText(b) < FractionText(a))
  {
    var (x, y) := (Digits(a % NANOS_PER_SECOND, 9), Digits(b % NANOS_PER_SECOND, 9));
    FractionOrder(a, b);
    TrimmedOrder(x, y);
    FractionSuffixOrder(TrimZeros(x), TrimZeros(y));
    CommonPrefixOrder(SecondText(SecondsOf(a)), FractionSuffix(TrimZeros(x)), FractionSuffix(TrimZeros(y)));
  }

  lemma FractionSuffixOrder(f: string, g: string)
    requires g != "" && f != g && g[0] <= '9'
    requires TextLess(f + "Z", g + "Z") <==> !(f < g)
    ensures TextLess(FractionSuffix(f), FractionSuffix(g)) <==> !(f < g)
    ensures FractionSuffix(f) != FractionSuffix(g)
  {
    var (x, y) := (FractionSuffix(f), FractionSuffix(g));
    assert y[0] == '.' && y[1..] == g + "Z";
    if f == "" {
      assert x[0] != y[0];
    } else {
      assert x[0] == '.' && x[1..] == f + "Z";
      assert f == x[1..][..|f|] && |x| == |f| + 2 && g == y[1..][..|g|] && |y| == |g| + 2;
    }
  }

  lemma CommonPrefixOrder(p: string, x: string, y: string)
    ensures TextLess(p + x, p + y) <==> TextLess(x, y)
    ensures p + x == p + y <==> x == y
  {
    FixedWidthOrder(p, p, x, y);
    TextOrderIsTotal(p, p);
    assert (p + x)[|p|..] == x && (p + y)[|p|..] == y;
  }

  // ---------- main results ----------

  /** Exactly when stored text says "due is not after now". */
  lemma DueByTextExactly(due: nat, now: nat)
    requires FourDigitYear(due) && FourDigitYear(now)
    ensures TextLE(Format(due), Format(now)) <==>
            || SecondsOf(due) < SecondsOf(now)
            || due == now
            || (SecondsOf(due) == SecondsOf(now) && due < now && !(FractionText(due) < FractionText(now)))
            || (SecondsOf(due) == SecondsOf(now) && now < due && FractionText(now) < FractionText(due))
  {
    TextOrderIsTotal(Format(due), Format(now));
    if SecondsOf(due) < SecondsOf(now) {
      EarlierSecondReadsEarlier(due, now);
    } else if SecondsOf(now) < SecondsOf(due) {
      EarlierSecondReadsEarlier(now, due);
    } else if due < now {
      SameSecondOrder(due, now);
    } else if now < due {
      SameSecondOrder(now, due);
    }
  }

  /** Never a whole second early, and never more than a second late. */
  lemma DueByTextWithinASecond(due: nat, now: nat)
    requires FourDigitYear(due) && FourDigitYear(now)
    ensures TextLE(Format(due), Format(now)) ==> due < now + NANOS_PER_SECOND
    ensures due + NANOS_PER_SECOND <= now ==> TextLE(Format(due), Format(now))
  {
    DueByTextExactly(due, now);
  }

  /** The text test is the time test exactly when the two do not share a second in which one printed fraction
      properly extends the other. */
  lemma TextTestIsTimeTestExactly(due: nat, now: nat)
    requires FourDigitYear(due) && FourDigitYear(now)
    ensures (TextLE(Format(due), Format(now)) <==> due <= now) <==>
            !(SecondsOf(due) == SecondsOf(now)
              && (FractionText(due) < FractionText(now) || FractionText(now) < FractionText(due)))
  {
    DueByTextExactly(due, now);
    if SecondsOf(due) == SecondsOf(now) {
      if due < now {
        SameSecondOrder(due, now);
      } else if now < due {
        SameSecondOrder(now, due);
      }
    }
  }

  lemma {:induction false} ZeroDigitsVanish(width: nat)
    ensures forall i :: 0 <= i < width ==> Digits(0, width)[i] == '0'
  {
    if width > 0 {
      ZeroDigitsVanish(width - 1);
    }
  }

  lemma {:induction false} ZerosTrimAway(s: string)
    requires forall i :: 0 <= i < |s| ==> s[i] == '0'
    ensures TrimZeros(s) == ""
  {
    if s != "" {
      ZerosTrimAway(s[1..]);
    }
  }

  /** A message due on a whole second is not claimable during the rest of that second. */
  lemma WholeSecondReadsLate(due: nat, now: nat)
    requires due % NANOS_PER_SECOND == 0 && SecondsOf(due) == SecondsOf(now) && due < now
    ensures !TextLE(Format(due), Format(now))
  {
    ZeroDigitsVanish(9);
    ZerosTrimAway(Digits(0, 9));
    SameSecondOrder(due, now);
    TextOrderIsTotal(Format(due), Format(now));
  }
}
