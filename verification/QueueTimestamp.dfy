/** Instants, their canonical UTC millisecond text, and why comparing the text compares time. */
module QueueTimestamp {
  import opened Text

  /** A UTC date-time with nanoseconds, for the years the four-digit format can write. */
  datatype Instant = Instant(year: nat, month: nat, day: nat, hour: nat, minute: nat, second: nat, nano: nat)

  const NANOS_PER_MILLI: nat := 1_000_000
  const MILLIS_PER_DAY: nat := 86_400_000

  predicate LeapYear(y: nat) { y % 4 == 0 && (y % 100 != 0 || y % 400 == 0) }

  function DaysIn(y: nat, m: nat): nat {
    if m == 2 then if LeapYear(y) then 29 else 28
    else if m == 4 || m == 6 || m == 9 || m == 11 then 30 else 31
  }

  predicate ValidDate(y: nat, m: nat, d: nat) { y <= 9999 && 1 <= m <= 12 && 1 <= d <= DaysIn(y, m) }

  predicate Valid(t: Instant) {
    ValidDate(t.year, t.month, t.day) && t.hour < 24 && t.minute < 60 && t.second < 60 && t.nano < 1_000_000_000
  }

  // ---- the time line ----

  function DaysBeforeMonth(y: nat, m: nat): nat {
    if m <= 1 then 0 else DaysBeforeMonth(y, m - 1) + DaysIn(y, m - 1)
  }

  function DaysBeforeYear(y: nat): nat {
    if y == 0 then 0 else DaysBeforeYear(y - 1) + DaysBeforeMonth(y - 1, 13)
  }

  function DayNumber(t: Instant): nat
    requires Valid(t)
  {
    DaysBeforeYear(t.year) + DaysBeforeMonth(t.year, t.month) + t.day - 1
  }

  function MilliOfDay(t: Instant): nat {
    ((t.hour * 60 + t.minute) * 60 + t.second) * 1000 + t.nano / NANOS_PER_MILLI
  }

  /** Whole milliseconds, and nanoseconds, since the start of year 0. */
  function Millis(t: Instant): nat
    requires Valid(t)
  {
    DayNumber(t) * MILLIS_PER_DAY + MilliOfDay(t)
  }

  function Nanos(t: Instant): nat
    requires Valid(t)
  {
    Millis(t) * NANOS_PER_MILLI + t.nano % NANOS_PER_MILLI
  }

  /** The signed duration from `earlier` to `t`, in nanoseconds. */
  function DurationSince(t: Instant, earlier: Instant): int
    requires Valid(t) && Valid(earlier)
  {
    Nanos(t) - Nanos(earlier)
  }

  function Truncate(t: Instant): Instant {
    t.(nano := t.nano / NANOS_PER_MILLI * NANOS_PER_MILLI)
  }

  // ---- the calendar in closed form ----

  /** Days before each month of a common year. */
  const BEFORE_MONTH: seq<nat> := [0, 31, 59, 90, 120, 151, 181, 212, 243, 273, 304, 334, 365]

  /** 1 for the years that `k` divides. */
  function Every(k: nat, y: nat): nat
    requires k > 0
  {
    if y % k == 0 then 1 else 0
  }

  /** Every fourth year has one more day, but no century, unless it is a fourth one. */
  function LeapDay(y: nat): int { Every(4, y) - Every(100, y) + Every(400, y) }

  /** How many years before `y` does `k` divide. */
  function Multiples(k: nat, y: nat): nat
    requires k > 0
  {
    if y == 0 then 0 else Multiples(k, y - 1) + Every(k, y - 1)
  }

  function LeapDaysBefore(y: nat): int { Multiples(4, y) - Multiples(100, y) + Multiples(400, y) }

  lemma TimesFour(q: nat)
    ensures 4 * q % 4 == 0
  {
  }

  lemma TimesHundred(q: nat)
    ensures 100 * q % 100 == 0
  {
  }

  lemma CenturiesAreFourths(y: nat)
    ensures y % 100 == 0 ==> y % 4 == 0
    ensures y % 400 == 0 ==> y % 100 == 0
  {
    if y % 100 == 0 {
      TimesFour(25 * (y / 100));
      assert y == 4 * (25 * (y / 100));
    }
    if y % 400 == 0 {
      TimesHundred(4 * (y / 400));
      assert y == 100 * (4 * (y / 400));
    }
  }

  lemma LeapYearExactly(y: nat)
    ensures LeapDay(y) == if LeapYear(y) then 1 else 0
  {
    CenturiesAreFourths(y);
  }

  lemma {:induction false} MonthStart(y: nat, m: nat)
    requires 1 <= m <= 13
    ensures DaysBeforeMonth(y, m) == BEFORE_MONTH[m - 1] + (if m > 2 then LeapDay(y) else 0)
    decreases m
  {
    LeapYearExactly(y);
    if m == 1 {
    } else {
      MonthStart(y, m - 1);
    }
  }

  lemma {:induction false} YearStart(y: nat)
    ensures DaysBeforeYear(y) == 365 * y + LeapDaysBefore(y)
    decreases y
  {
    if y == 0 {
    } else {
      YearStart(y - 1);
      MonthStart(y - 1, 13);
    }
  }

  /** Exactly the date-times that exist are valid, up to year 9999. */
  lemma ValidExactly(t: Instant)
    ensures Valid(t) <==>
      && t.year <= 9999 && 1 <= t.month <= 12 && t.hour < 24 && t.minute < 60 && t.second < 60 && t.nano < 1_000_000_000
      && 1 <= t.day <= BEFORE_MONTH[t.month] - BEFORE_MONTH[t.month - 1] + (if t.month == 2 then LeapDay(t.year) else 0)
  {
    LeapYearExactly(t.year);
  }

  /** The time line is that of the Gregorian calendar. */
  lemma NanosExactly(t: Instant)
    requires Valid(t)
    ensures var days := 365 * t.year + LeapDaysBefore(t.year) + BEFORE_MONTH[t.month - 1]
                        + (if t.month > 2 then LeapDay(t.year) else 0) + t.day - 1;
      Nanos(t) == (((days * 24 + t.hour) * 60 + t.minute) * 60 + t.second) * 1_000_000_000 + t.nano
  {
    MonthStart(t.year, t.month);
    YearStart(t.year);
  }

  // ---- the canonical text ----

  const WIDTHS: seq<nat> := [4, 2, 2, 2, 2, 2, 3]
  const MARKS: string := "--T::.Z"

  /** From field `i` on: every field zero-padded to its width and closed by its mark. */
  function Render(v: seq<nat>, i: nat): string
    requires |v| == 7 && i <= 7
    decreases 7 - i
  {
    if i == 7 then "" else Padded(v[i], WIDTHS[i]) + [MARKS[i]] + Render(v, i + 1)
  }

  function Fields(t: Instant): (v: seq<nat>)
    ensures |v| == 7
  {
    [t.year, t.month, t.day, t.hour, t.minute, t.second, t.nano / NANOS_PER_MILLI]
  }

  function Format(t: Instant): string { Render(Fields(t), 0) }

  lemma RenderField(v: seq<nat>, i: nat, width: nat, mark: char, rest: string)
    requires |v| == 7 && i < 7 && WIDTHS[i] == width && MARKS[i] == mark && Render(v, i + 1) == rest
    ensures Render(v, i) == Padded(v[i], width) + ([mark] + rest)
  {
  }

  function DateText(t: Instant, rest: string): string {
    Padded(t.year, 4) + (['-'] + (Padded(t.month, 2) + (['-'] + (Padded(t.day, 2) + (['T'] + rest)))))
  }

  function ClockText(t: Instant): string {
    Padded(t.hour, 2) + ([':'] + (Padded(t.minute, 2) + ([':'] + (Padded(t.second, 2) + (['.']
    + (Padded(t.nano / NANOS_PER_MILLI, 3) + ['Z']))))))
  }

  /** The column format, written out. */
  lemma FormatExactly(t: Instant)
    ensures Format(t) == DateText(t, ClockText(t))
  {
    var v := Fields(t);
    ClockExactly(t);
    RenderField(v, 2, 2, 'T', Render(v, 3));
    RenderField(v, 1, 2, '-', Render(v, 2));
    RenderField(v, 0, 4, '-', Render(v, 1));
  }

  lemma ClockExactly(t: Instant)
    ensures Render(Fields(t), 3) == ClockText(t)
  {
    var v := Fields(t);
    RenderField(v, 6, 3, 'Z', "");
    assert ['Z'] + "" == ['Z'];
    RenderField(v, 5, 2, '.', Render(v, 6));
    RenderField(v, 4, 2, ':', Render(v, 5));
    RenderField(v, 3, 2, ':', Render(v, 4));
  }

  /** Reads back fields `i..` or fails on the first one that is not of the canonical shape. */
  function Scan(s: string, i: nat): Option<seq<nat>>
    requires i <= 7
    decreases 7 - i
  {
    if i == 7 then if s == "" then Some([]) else None
    else if |s| <= WIDTHS[i] || !AllDigits(s[..WIDTHS[i]]) || s[WIDTHS[i]] != MARKS[i] then None
    else match Scan(s[WIDTHS[i] + 1..], i + 1)
      case None => None
      case Some(rest) => Some([Value(s[..WIDTHS[i]])] + rest)
  }

  /** Reads canonical text and nothing else. */
  function ParseCanonical(s: string): (r: Option<Instant>)
    ensures r.Some? ==> Valid(r.value)
  {
    match Scan(s, 0)
    case None => None
    case Some(v) => FromFields(v)
  }

  function FromFields(v: seq<nat>): (r: Option<Instant>)
    ensures r.Some? ==> Valid(r.value)
  {
    if |v| != 7 then None
    else
      var t := Instant(v[0], v[1], v[2], v[3], v[4], v[5], v[6] * NANOS_PER_MILLI);
      if Valid(t) then Some(t) else None
  }

  predicate Fits(v: seq<nat>) {
    |v| == 7 && forall i :: 0 <= i < 7 ==> v[i] < Pow10(WIDTHS[i])
  }

  lemma FieldsFit(t: Instant)
    requires Valid(t)
    ensures Fits(Fields(t))
  {
    assert Pow10(2) == 10 * Pow10(1) == 100;
    assert Pow10(3) == 10 * Pow10(2) == 1000;
    assert Pow10(4) == 10 * Pow10(3) == 10000;
  }

  // ---- formatting and parsing undo each other ----

  lemma ScanField(field: string, rest: string, i: nat, values: seq<nat>)
    requires i < 7 && |field| == WIDTHS[i] && AllDigits(field) && Scan(rest, i + 1) == Some(values)
    ensures Scan(field + [MARKS[i]] + rest, i) == Some([Value(field)] + values)
  {
    var s, w := field + [MARKS[i]] + rest, |field|;
    assert s[..w] == field && s[w] == MARKS[i] && s[w + 1..] == rest;
  }

  lemma ScanFirst(v: seq<nat>, i: nat, rest: string, values: seq<nat>)
    requires Fits(v) && i < 7 && Scan(rest, i + 1) == Some(values)
    ensures Scan(Padded(v[i], WIDTHS[i]) + [MARKS[i]] + rest, i) == Some([v[i]] + values)
  {
    PaddedValue(v[i], WIDTHS[i]);
    ScanField(Padded(v[i], WIDTHS[i]), rest, i, values);
  }

  lemma {:induction false} ScanRender(v: seq<nat>, i: nat)
    requires Fits(v) && i <= 7
    ensures Scan(Render(v, i), i) == Some(v[i..])
    decreases 7 - i
  {
    if i < 7 {
      ScanRender(v, i + 1);
      ScanFirst(v, i, Render(v, i + 1), v[i + 1..]);
      assert v[i..] == [v[i]] + v[i + 1..];
    } else {
      assert v[i..] == [];
    }
  }

  lemma CutAt(s: string, w: nat)
    requires w < |s|
    ensures s == s[..w] + [s[w]] + s[w + 1..]
  {
  }

  lemma ScanHead(s: string, i: nat, v: seq<nat>)
    requires i < 7 && |v| == 7 && Scan(s, i) == Some(v[i..])
    ensures var w := WIDTHS[i];
      |s| > w && AllDigits(s[..w]) && s[w] == MARKS[i] && Value(s[..w]) == v[i]
          && Scan(s[w + 1..], i + 1) == Some(v[i + 1..])
  {
    assert v[i..][1..] == v[i + 1..];
  }

  lemma {:induction false} RenderScan(s: string, i: nat, v: seq<nat>)
    requires i <= 7 && |v| == 7 && Scan(s, i) == Some(v[i..])
    ensures Render(v, i) == s
    decreases 7 - i
  {
    if i == 7 {
    } else {
      var w := WIDTHS[i];
      ScanHead(s, i, v);
      ValuePadded(s[..w]);
      RenderScan(s[w + 1..], i + 1, v);
      CutAt(s, w);
    }
  }

  lemma ScanFormat(t: Instant)
    requires Valid(t)
    ensures Scan(Format(t), 0) == Some(Fields(t))
  {
    FieldsFit(t);
    ScanRender(Fields(t), 0);
    assert Fields(t)[0..] == Fields(t);
  }

  lemma FromFieldsTruncates(t: Instant)
    requires Valid(t)
    ensures FromFields(Fields(t)) == Some(Truncate(t))
    ensures Valid(Truncate(t)) && Truncate(Truncate(t)) == Truncate(t) && Fields(Truncate(t)) == Fields(t)
  {
  }

  /** Writing an instant and reading it back loses exactly the sub-millisecond part. */
  lemma ParseFormat(t: Instant)
    requires Valid(t)
    ensures ParseCanonical(Format(t)) == Some(Truncate(t))
    ensures Valid(Truncate(t)) && Truncate(Truncate(t)) == Truncate(t) && Format(Truncate(t)) == Format(t)
  {
    ScanFormat(t);
    FromFieldsTruncates(t);
  }

  lemma FieldsOfParsed(v: seq<nat>)
    requires FromFields(v).Some?
    ensures Fields(FromFields(v).value) == v && Truncate(FromFields(v).value) == FromFields(v).value
  {
  }

  /** Canonical text has one spelling: what is read as an instant is what formatting that instant writes,
      so two stored texts are equal when their instants are. */
  lemma FormatParse(s: string)
    requires ParseCanonical(s).Some?
    ensures Format(ParseCanonical(s).value) == s && Truncate(ParseCanonical(s).value) == ParseCanonical(s).value
  {
    var v := Scan(s, 0).value;
    FieldsOfParsed(v);
    assert v[0..] == v;
    RenderScan(s, 0, v);
  }

  ghost predicate ReadsValid(read: string -> Option<Instant>) { forall s :: read(s).Some? ==> Valid(read(s).value) }

  /** A reader of timestamps in any spelling, as for RFC 3339, of which only this is fixed: no instant
      out of range is ever returned, and canonical text is read as the truncated instant. */
  ghost predicate ReadsCanonical(read: string -> Option<Instant>) {
    ReadsValid(read) && forall t :: Valid(t) ==> read(Format(t)) == Some(Truncate(t))
  }

  lemma ReadsAlike(read: string -> Option<Instant>, s: string)
    requires ReadsCanonical(read) && ParseCanonical(s).Some?
    ensures read(s) == ParseCanonical(s)
  {
    FormatParse(s);
    assert read(Format(ParseCanonical(s).value)) == Some(Truncate(ParseCanonical(s).value));
  }

  lemma TruncationCost(t: Instant)
    requires Valid(t)
    ensures Millis(Truncate(t)) == Millis(t)
    ensures 0 <= Nanos(t) - Nanos(Truncate(t)) < NANOS_PER_MILLI
  {
  }

  // ---- text order is time order ----

  predicate LexBefore(u: seq<nat>, v: seq<nat>, i: nat)
    requires |u| == |v| == 7 && i <= 7
    decreases 7 - i
  {
    i < 7 && (u[i] < v[i] || (u[i] == v[i] && LexBefore(u, v, i + 1)))
  }

  lemma {:induction false} RenderOrder(u: seq<nat>, v: seq<nat>, i: nat)
    requires Fits(u) && Fits(v) && i <= 7
    ensures Before(Render(u, i), Render(v, i)) <==> LexBefore(u, v, i)
    decreases 7 - i
  {
    if i == 7 {
    } else {
      RenderOrder(u, v, i + 1);
      PaddedOrder(u[i], v[i], WIDTHS[i]);
      BeforeByField(Padded(u[i], WIDTHS[i]), Render(u, i + 1), Padded(v[i], WIDTHS[i]), Render(v, i + 1), MARKS[i]);
    }
  }

  lemma {:induction false} MonthsAdvance(y: nat, m: nat, m': nat)
    requires 1 <= m < m' <= 13
    ensures DaysBeforeMonth(y, m) + DaysIn(y, m) <= DaysBeforeMonth(y, m')
    decreases m'
  {
    if m + 1 >= m' {
    } else {
      MonthsAdvance(y, m, m' - 1);
    }
  }

  lemma {:induction false} YearsAdvance(y: nat, y': nat)
    requires y < y'
    ensures DaysBeforeYear(y) + DaysBeforeMonth(y, 13) <= DaysBeforeYear(y')
    decreases y'
  {
    if y + 1 >= y' {
    } else {
      YearsAdvance(y, y' - 1);
    }
  }

  lemma DatesAdvance(a: Instant, b: Instant)
    requires Valid(a) && Valid(b)
    requires a.year < b.year || (a.year == b.year && (a.month < b.month || (a.month == b.month && a.day < b.day)))
    ensures DayNumber(a) < DayNumber(b)
  {
    if a.year < b.year {
      MonthsAdvance(a.year, a.month, 13);
      YearsAdvance(a.year, b.year);
    } else if a.month < b.month {
      MonthsAdvance(a.year, a.month, b.month);
    }
  }

  lemma LexIsEarlier(a: Instant, b: Instant)
    requires Valid(a) && Valid(b) && LexBefore(Fields(a), Fields(b), 0)
    ensures Millis(a) < Millis(b)
  {
    if a.year == b.year && a.month == b.month && a.day == b.day {
      ClockAdvances(a, b);
    } else {
      DatesAdvance(a, b);
    }
  }

  lemma ClockAdvances(a: Instant, b: Instant)
    requires Valid(a) && Valid(b)
    requires a.year == b.year && a.month == b.month && a.day == b.day && LexBefore(Fields(a), Fields(b), 0)
    ensures MilliOfDay(a) < MilliOfDay(b)
  {
    assert LexBefore(Fields(a), Fields(b), 3);
  }

  lemma LexTotal(u: seq<nat>, v: seq<nat>, i: nat)
    requires |u| == |v| == 7 && i <= 7
    ensures LexBefore(u, v, i) || LexBefore(v, u, i) || u[i..] == v[i..]
    decreases 7 - i
  {
    if i == 7 || u[i] != v[i] {
    } else {
      LexTotal(u, v, i + 1);
      assert u[i..] == [u[i]] + u[i + 1..] && v[i..] == [v[i]] + v[i + 1..];
    }
  }

  /** The text order of two canonical timestamps is the order of their truncated instants, and the
      texts agree exactly when those instants do. */
  lemma TextOrderIsTimeOrder(a: Instant, b: Instant)
    requires Valid(a) && Valid(b)
    ensures Before(Format(a), Format(b)) <==> Millis(a) < Millis(b)
    ensures Format(a) == Format(b) <==> Millis(a) == Millis(b)
  {
    var u, v := Fields(a), Fields(b);
    FieldsFit(a);
    FieldsFit(b);
    RenderOrder(u, v, 0);
    RenderOrder(v, u, 0);
    LexTotal(u, v, 0);
    if LexBefore(u, v, 0) {
      LexIsEarlier(a, b);
      BeforeIrreflexive(Format(a));
    } else if LexBefore(v, u, 0) {
      LexIsEarlier(b, a);
      BeforeIrreflexive(Format(a));
    } else {
      assert u[0..] == u && v[0..] == v;
      assert Truncate(a) == Truncate(b);
      TruncationCost(a);
      TruncationCost(b);
      BeforeIrreflexive(Format(a));
    }
  }

  /** A duration measured from a stored enqueue time exceeds the true one by less than a
      millisecond, and never falls short of it. */
  lemma StoredDuration(enqueued: Instant, completed: Instant)
    requires Valid(enqueued) && Valid(completed)
    ensures ParseCanonical(Format(enqueued)).Some?
    ensures var stored := ParseCanonical(Format(enqueued)).value;
      && Valid(stored)
      && 0 <= DurationSince(completed, stored) - DurationSince(completed, enqueued) < NANOS_PER_MILLI
  {
    ParseFormat(enqueued);
    TruncationCost(enqueued);
  }
}
