/** `format_relative_time`: how long ago a timestamp was, in words. The clock
    reading is a parameter; times are integer nanoseconds, the resolution of
    chrono's `TimeDelta`. */
module RelativeTime {
  import opened Decimal

  const NANOS_PER_SECOND: nat := 1_000_000_000
  const SECONDS_PER_MINUTE: nat := 60
  const MINUTE: nat := SECONDS_PER_MINUTE * NANOS_PER_SECOND
  const HOUR: nat := 60 * MINUTE
  const DAY: nat := 24 * HOUR
  const WEEK: nat := 7 * DAY
  /** The month of the last phrase: thirty whole days. */
  const MONTH: nat := 30 * DAY

  /** Integer division rounding toward zero, as Rust's `/` on `i64`. */
  function TruncDiv(a: int, b: nat): (q: int)
    requires b > 0
    ensures a >= 0 ==> q * b <= a < (q + 1) * b
    ensures a < 0 ==> (q - 1) * b < a <= q * b
  {
    if a >= 0 then a / b else -((-a) / b)
  }

  /** Whole units of `unit` nanoseconds, as `num_seconds` and the coarser
      `num_*` of chrono compute them: whole seconds first, then whole units
      of those. Both truncations together equal one truncation. */
  function WholeUnits(d: int, secondsPerUnit: nat): (q: int)
    requires secondsPerUnit > 0
    ensures d >= 0 ==> q * (secondsPerUnit * NANOS_PER_SECOND) <= d < (q + 1) * (secondsPerUnit * NANOS_PER_SECOND)
    ensures d < 0 ==> (q - 1) * (secondsPerUnit * NANOS_PER_SECOND) < d <= q * (secondsPerUnit * NANOS_PER_SECOND)
  {
    TruncTwice(d, secondsPerUnit);
    TruncDiv(TruncDiv(d, NANOS_PER_SECOND), secondsPerUnit)
  }

  lemma TruncTwice(d: int, secondsPerUnit: nat)
    requires secondsPerUnit > 0
    ensures var q := TruncDiv(TruncDiv(d, NANOS_PER_SECOND), secondsPerUnit);
      (d >= 0 ==> q * (secondsPerUnit * NANOS_PER_SECOND) <= d < (q + 1) * (secondsPerUnit * NANOS_PER_SECOND))
      && (d < 0 ==> (q - 1) * (secondsPerUnit * NANOS_PER_SECOND) < d <= q * (secondsPerUnit * NANOS_PER_SECOND))
  {
    var s := TruncDiv(d, NANOS_PER_SECOND);
    var q := TruncDiv(s, secondsPerUnit);
    MulAssoc(q, secondsPerUnit, NANOS_PER_SECOND);
    MulAssoc(q + 1, secondsPerUnit, NANOS_PER_SECOND);
    MulAssoc(q - 1, secondsPerUnit, NANOS_PER_SECOND);
    if d >= 0 {
      MulMono(s + 1, (q + 1) * secondsPerUnit, NANOS_PER_SECOND);
      MulMono(q * secondsPerUnit, s, NANOS_PER_SECOND);
    } else {
      MulMono((q - 1) * secondsPerUnit, s - 1, NANOS_PER_SECOND);
      MulMono(s, q * secondsPerUnit, NANOS_PER_SECOND);
    }
  }

  lemma MulAssoc(a: int, b: int, c: int)
    ensures (a * b) * c == a * (b * c)
  {
  }

  lemma MulMono(a: int, b: int, c: nat)
    requires a <= b
    ensures a * c <= b * c
  {
  }

  function NumMinutes(d: int): int { WholeUnits(d, 60) }
  function NumHours(d: int): int { WholeUnits(d, 3600) }
  function NumDays(d: int): int { WholeUnits(d, 86400) }
  function NumWeeks(d: int): int { WholeUnits(d, 604800) }

  /** The phrase chosen for an elapsed duration, with its number. */
  datatype Phrase =
    | InMinutes(minutes: int)
    | LessThanAMinute
    | MinutesAgo(minutes: int)
    | HoursAgo(hours: int)
    | Today
    | DaysAgo(days: int)
    | OneWeekAgo
    | WeeksAgo(weeks: int)
    | MonthsAgo(months: int)

  /** The thresholds are tried from the smallest up. The number shown is the
      count of whole units elapsed (toward zero for a time in the future), so
      each phrase's number lies in the range its thresholds allow. */
  function Classify(d: int): (p: Phrase)
    ensures p.InMinutes? <==> d < 0
    ensures p.InMinutes? ==> p.minutes <= 0 && (p.minutes - 1) * MINUTE < d <= p.minutes * MINUTE
    ensures p.LessThanAMinute? <==> 0 <= d < MINUTE
    ensures p.MinutesAgo? ==> 1 <= p.minutes <= 59 && p.minutes * MINUTE <= d < (p.minutes + 1) * MINUTE
    ensures p.HoursAgo? ==> 1 <= p.hours <= 23 && p.hours * HOUR <= d < (p.hours + 1) * HOUR
    ensures p.Today? <==> DAY <= d < 2 * DAY
    ensures p.DaysAgo? ==> 2 <= p.days <= 6 && p.days * DAY <= d < (p.days + 1) * DAY
    ensures p.OneWeekAgo? <==> WEEK <= d < 2 * WEEK
    ensures p.WeeksAgo? ==> 2 <= p.weeks <= 8 && p.weeks * WEEK <= d < (p.weeks + 1) * WEEK
    ensures p.MonthsAgo? <==> d >= 60 * DAY
    ensures p.MonthsAgo? ==> p.months >= 2 && p.months * MONTH <= d < (p.months + 1) * MONTH
  {
    if d < 0 then
      var m := NumMinutes(d);
      NotPositive(d, m, MINUTE);
      InMinutes(m)
    else if d < MINUTE then LessThanAMinute
    else if d < HOUR then
      var m := NumMinutes(d);
      Between(d, m, MINUTE, 1, 60);
      MinutesAgo(m)
    else if d < DAY then
      var h := NumHours(d);
      Between(d, h, HOUR, 1, 24);
      HoursAgo(h)
    else if d < 2 * DAY then Today
    else if d < WEEK then
      var n := NumDays(d);
      Between(d, n, DAY, 2, 7);
      DaysAgo(n)
    else if d < 2 * WEEK then OneWeekAgo
    else if d < 60 * DAY then
      var w := NumWeeks(d);
      Between(d, w, WEEK, 2, 9);
      WeeksAgo(w)
    else
      var n := NumDays(d);
      Between(d, n, DAY, 60, n + 1);
      Months(d, n);
      MonthsAgo(n / 30)
  }

  /** Thirty whole days at a time: a count of whole days of `d` divided by 30
      counts the whole months of `d`. */
  lemma Months(d: int, n: int)
    requires n >= 0 && n * DAY <= d < (n + 1) * DAY
    ensures (n / 30) * MONTH <= d < (n / 30 + 1) * MONTH
  {
    var m := n / 30;
    assert 30 * m <= n < 30 * m + 30;
    MulMono(30 * m, n, DAY);
    MulMono(n + 1, 30 * m + 30, DAY);
    MulAssoc(m, 30, DAY);
    MulAssoc(m + 1, 30, DAY);
  }

  lemma NotPositive(d: int, q: int, unit: nat)
    requires unit > 0 && d < 0 && (q - 1) * unit < d
    ensures q <= 0
  {
    if q > 0 { MulMono(0, q - 1, unit); }
  }

  /** A whole-unit count of a duration lying between `lo` and `hi` units lies
      between `lo` and `hi`. */
  lemma Between(d: int, q: int, unit: nat, lo: int, hi: int)
    requires unit > 0
    requires q * unit <= d < (q + 1) * unit
    requires lo * unit <= d < hi * unit
    ensures lo <= q < hi
  {
    if q >= hi { MulMono(hi, q, unit); }
    if q + 1 <= lo { MulMono(q + 1, lo, unit); }
  }

  function Render(p: Phrase): string {
    match p
    case InMinutes(m) => "in " + IntToString(m) + " minutes"
    case LessThanAMinute => "less than a minute ago"
    case MinutesAgo(m) => IntToString(m) + " minutes ago"
    case HoursAgo(h) => IntToString(h) + " hours ago"
    case Today => "today"
    case DaysAgo(n) => IntToString(n) + " days ago"
    case OneWeekAgo => "1 week ago"
    case WeeksAgo(w) => IntToString(w) + " weeks ago"
    case MonthsAgo(m) => IntToString(m) + " months ago"
  }

  /** A future time is the only one written "in ...", and every past time
      except the previous day is written "... ago". */
  function FormatRelativeTime(now: int, time: int): (r: string)
    ensures now < time <==> "in " <= r
    ensures now >= time ==> r == "today" || (|r| >= 4 && r[|r| - 4..] == " ago")
  {
    var p := Classify(now - time);
    RenderShape(p);
    Render(p)
  }

  lemma RenderShape(p: Phrase)
    requires p.MinutesAgo? ==> p.minutes >= 0
    requires p.HoursAgo? ==> p.hours >= 0
    requires p.DaysAgo? ==> p.days >= 0
    requires p.WeeksAgo? ==> p.weeks >= 0
    requires p.MonthsAgo? ==> p.months >= 0
    ensures p.InMinutes? <==> "in " <= Render(p)
    ensures !p.InMinutes? ==> Render(p) == "today" || PastPhrase(Render(p))
  {
    match p
    case InMinutes(_) =>
    case LessThanAMinute => Past(Render(p));
    case MinutesAgo(m) => Counted(m, " minutes ago");
    case HoursAgo(h) => Counted(h, " hours ago");
    case Today => assert Render(p)[0] == 't';
    case DaysAgo(n) => Counted(n, " days ago");
    case OneWeekAgo => Past(Render(p));
    case WeeksAgo(w) => Counted(w, " weeks ago");
    case MonthsAgo(m) => Counted(m, " months ago");
  }

  /** A phrase not starting with `i` and ending in " ago". */
  predicate PastPhrase(x: string) {
    |x| >= 4 && x[0] != 'i' && x[|x| - 4..] == " ago"
  }

  lemma Past(x: string)
    requires PastPhrase(x)
    ensures !("in " <= x) && x[|x| - 4..] == " ago"
  {
  }

  /** A number of units ago is written with its digits first. */
  lemma Counted(n: nat, unit: string)
    requires |unit| >= 4 && unit[|unit| - 4..] == " ago"
    ensures PastPhrase(IntToString(n) + unit)
  {
    NatToStringStartsWithDigit(n);
    var x := IntToString(n) + unit;
    assert x[|x| - 4..] == unit[|unit| - 4..];
  }

  /** Position of each phrase on the time line. */
  function Rank(p: Phrase): nat {
    match p
    case InMinutes(_) => 0
    case LessThanAMinute => 1
    case MinutesAgo(_) => 2
    case HoursAgo(_) => 3
    case Today => 4
    case DaysAgo(_) => 5
    case OneWeekAgo => 6
    case WeeksAgo(_) => 7
    case MonthsAgo(_) => 8
  }

  /** Older timestamps never get a phrase for a more recent time, and within
      one phrase the number never decreases. */
  lemma ClassifyMonotone(d1: int, d2: int)
    requires d1 <= d2
    ensures Rank(Classify(d1)) <= Rank(Classify(d2))
    ensures Classify(d1).MinutesAgo? && Classify(d2).MinutesAgo? ==> Classify(d1).minutes <= Classify(d2).minutes
    ensures Classify(d1).HoursAgo? && Classify(d2).HoursAgo? ==> Classify(d1).hours <= Classify(d2).hours
    ensures Classify(d1).DaysAgo? && Classify(d2).DaysAgo? ==> Classify(d1).days <= Classify(d2).days
    ensures Classify(d1).WeeksAgo? && Classify(d2).WeeksAgo? ==> Classify(d1).weeks <= Classify(d2).weeks
    ensures Classify(d1).MonthsAgo? && Classify(d2).MonthsAgo? ==> Classify(d1).months <= Classify(d2).months
  {
  }
}
