/** The relative-time labels shown under each repository card (`formatDate`). */
module RelativeTime {
  import opened Repos

  function Abs(x: int): nat { if x < 0 then -x else x }

  /** `Math.ceil(Math.abs(now - date) / MillisPerDay)`: whole days, rounded up. */
  function DiffDays(now: int, date: int): (days: nat)
    ensures (days - 1) * MillisPerDay < Abs(now - date) <= days * MillisPerDay
  {
    (Abs(now - date) + MillisPerDay - 1) / MillisPerDay
  }

  /** The label kinds, with the number each carries. */
  datatype Label = Today | Yesterday | DaysAgo(days: nat) | WeeksAgo(weeks: nat) | MonthsAgo(months: nat) | YearsAgo(years: nat)

  /** The bucket chain on the day difference. */
  function Classify(diffDays: nat): Label
  {
    if diffDays == 0 then Today
    else if diffDays == 1 then Yesterday
    else if diffDays < 7 then DaysAgo(diffDays)
    else if diffDays < 30 then WeeksAgo(diffDays / 7)
    else if diffDays < 365 then MonthsAgo(diffDays / 30)
    else YearsAgo(diffDays / 365)
  }

  /** Each bucket covers exactly its day range, and the number it carries is the count of
      whole weeks (1..4), months of 30 days (1..12) or years of 365 days (at least 1). */
  lemma ClassifyBuckets(d: nat)
    ensures Classify(d) == Today <==> d == 0
    ensures Classify(d) == Yesterday <==> d == 1
    ensures Classify(d).DaysAgo? <==> 2 <= d < 7
    ensures Classify(d).WeeksAgo? <==> 7 <= d < 30
    ensures Classify(d).MonthsAgo? <==> 30 <= d < 365
    ensures Classify(d).YearsAgo? <==> 365 <= d
    ensures Classify(d).DaysAgo? ==> Classify(d).days == d
    ensures Classify(d).WeeksAgo? ==>
              var w := Classify(d).weeks; 1 <= w <= 4 && w * 7 <= d < (w + 1) * 7
    ensures Classify(d).MonthsAgo? ==>
              var m := Classify(d).months; 1 <= m <= 12 && m * 30 <= d < (m + 1) * 30
    ensures Classify(d).YearsAgo? ==>
              var y := Classify(d).years; 1 <= y && y * 365 <= d < (y + 1) * 365
  {
  }

  predicate IsDigit(c: char) { '0' <= c <= '9' }

  predicate AllDigits(s: string) { forall i :: 0 <= i < |s| ==> IsDigit(s[i]) }

  function DigitChar(d: nat): (c: char)
    requires d < 10
    ensures IsDigit(c)
  {
    ('0' as int + d) as char
  }

  /** A non-negative integer in decimal, as a template literal prints it. */
  function NatToString(n: nat): (s: string)
    ensures |s| > 0 && AllDigits(s)
    ensures n > 0 ==> s[0] != '0'
  {
    if n < 10 then [DigitChar(n)] else NatToString(n / 10) + [DigitChar(n % 10)]
  }

  /** The number a string of decimal digits denotes. */
  function DigitsValue(s: string): nat
    requires AllDigits(s)
  {
    if |s| == 0 then 0 else DigitsValue(s[..|s| - 1]) * 10 + (s[|s| - 1] as int - '0' as int)
  }

  /** Reading the printed digits back gives the number. */
  lemma {:induction false} NatToStringRoundTrip(n: nat)
    ensures DigitsValue(NatToString(n)) == n
  {
    if n >= 10 {
      NatToStringRoundTrip(n / 10);
      var s := NatToString(n);
      assert s[..|s| - 1] == NatToString(n / 10);
    }
  }

  function Render(tag: Label): string
  {
    match tag
    case Today => "Today"
    case Yesterday => "Yesterday"
    case DaysAgo(n) => NatToString(n) + " days ago"
    case WeeksAgo(n) => NatToString(n) + " weeks ago"
    case MonthsAgo(n) => NatToString(n) + " months ago"
    case YearsAgo(n) => NatToString(n) + " years ago"
  }

  /** Two digit strings each followed by a suffix starting with a space split the same way. */
  lemma DigitsThenSpace(a1: string, b1: string, a2: string, b2: string)
    requires AllDigits(a1) && AllDigits(a2)
    requires |b1| > 0 && b1[0] == ' ' && |b2| > 0 && b2[0] == ' '
    requires a1 + b1 == a2 + b2
    ensures a1 == a2 && b1 == b2
  {
    assert (a1 + b1)[|a1|] == ' ' && (a2 + b2)[|a2|] == ' ';
    assert forall i :: 0 <= i < |a2| ==> (a2 + b2)[i] == a2[i];
    assert forall i :: 0 <= i < |a1| ==> (a1 + b1)[i] == a1[i];
    assert a1 == (a1 + b1)[..|a1|];
    assert a2 == (a2 + b2)[..|a2|];
  }

  /** Distinct labels never print alike: the shown text determines the label. */
  lemma RenderInjective(l1: Label, l2: Label)
    requires Render(l1) == Render(l2)
    ensures l1 == l2
  {
    if !(l1.Today? || l1.Yesterday? || l2.Today? || l2.Yesterday?) {
      var s := Render(l1);
      var n1, n2 := NumberOf(l1), NumberOf(l2);
      DigitsThenSpace(NatToString(n1), s[|NatToString(n1)|..], NatToString(n2), s[|NatToString(n2)|..]);
      NatToStringRoundTrip(n1);
      NatToStringRoundTrip(n2);
    }
  }

  /** The number a non-word label carries. */
  function NumberOf(tag: Label): nat
    requires !tag.Today? && !tag.Yesterday?
  {
    match tag
    case DaysAgo(n) => n
    case WeeksAgo(n) => n
    case MonthsAgo(n) => n
    case YearsAgo(n) => n
  }

  /** `formatDate` as written: the text for an update at `date`, seen at `now`. */
  function FormatDate(now: int, date: int): string
  {
    Render(Classify(DiffDays(now, date)))
  }

  /** As written, "Today" appears only when the two instants are the same millisecond:
      rounding up turns any positive difference into at least one day. */
  lemma FormatDateToday(now: int, date: int)
    ensures FormatDate(now, date) == "Today" <==> now == date
  {
    ClassifyBuckets(DiffDays(now, date));
    if FormatDate(now, date) == "Today" {
      RenderInjective(Classify(DiffDays(now, date)), Today);
    }
  }

  /** An update one hour ago is labelled "Yesterday". */
  lemma OneHourAgoReadsYesterday(now: int)
    ensures FormatDate(now, now - 3_600_000) == "Yesterday"
  {
    assert DiffDays(now, now - 3_600_000) == 1;
  }

  /** The labels for every difference: "Yesterday" up to one day, the day count up to six
      days, then weeks, months and years. */
  lemma FormatDateBuckets(now: int, date: int)
    ensures var d := DiffDays(now, date);
            && (FormatDate(now, date) == "Yesterday" <==> d == 1)
            && (2 <= d < 7 ==> FormatDate(now, date) == NatToString(d) + " days ago")
            && (7 <= d < 30 ==> FormatDate(now, date) == NatToString(d / 7) + " weeks ago")
            && (30 <= d < 365 ==> FormatDate(now, date) == NatToString(d / 30) + " months ago")
            && (365 <= d ==> FormatDate(now, date) == NatToString(d / 365) + " years ago")
  {
    var d := DiffDays(now, date);
    ClassifyBuckets(d);
    if FormatDate(now, date) == "Yesterday" {
      RenderInjective(Classify(d), Yesterday);
    }
  }

  /** Whole days elapsed, rounded down: the count under which "Today" means "less than a
      day ago". */
  function ElapsedDays(now: int, date: int): (days: nat)
    ensures days * MillisPerDay <= Abs(now - date) < (days + 1) * MillisPerDay
  {
    Abs(now - date) / MillisPerDay
  }

  /** `formatDate` with the day count rounded down. */
  function FormatDateElapsed(now: int, date: int): string
  {
    Render(Classify(ElapsedDays(now, date)))
  }

  /** Rounded down, "Today" covers the whole first day and "Yesterday" the second. */
  lemma FormatDateElapsedTodayYesterday(now: int, date: int)
    ensures FormatDateElapsed(now, date) == "Today" <==> Abs(now - date) < MillisPerDay
    ensures FormatDateElapsed(now, date) == "Yesterday" <==> MillisPerDay <= Abs(now - date) < 2 * MillisPerDay
  {
    var d := ElapsedDays(now, date);
    ClassifyBuckets(d);
    if FormatDateElapsed(now, date) == "Today" {
      RenderInjective(Classify(d), Today);
    }
    if FormatDateElapsed(now, date) == "Yesterday" {
      RenderInjective(Classify(d), Yesterday);
    }
  }
}
