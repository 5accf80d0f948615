/**
 * The dashboard's relative-time label: whole seconds since an event, then
 * minutes, hours, days and 30-day months, each cut at a fixed threshold.
 */
module Dashboard {
  import opened Common
  import opened Storage

  datatype TimeUnit = Seconds | Minutes | Hours | Days | Months

  const SecondsPerMinute: int := 60
  const SecondsPerHour: int := 60 * 60
  const SecondsPerDay: int := 24 * 60 * 60
  const SecondsPerMonth: int := 30 * 24 * 60 * 60

  /** Math.floor((now - stamp) / 1000): for a positive divisor Dafny's `/` is the mathematical floor. */
  function ElapsedSeconds(now: Millis, stamp: Millis): (s: int)
    ensures 1000 * s <= now - stamp < 1000 * s + 1000
  {
    (now - stamp) / 1000
  }

  /** Taking the floor twice is taking it once by the product. */
  lemma FloorTwice(a: int, b: int, c: int)
    requires b > 0 && c > 0
    ensures a / b / c == a / (b * c)
  {
    var q := a / b;
    var r := a % b;
    var q2 := q / c;
    var r2 := q % c;
    Distribute(b, c, q2, r2);
    MulMonotone(b, r2, c - 1);
    Distribute(b, 1, c - 1, 0);
    DivisionByParts(a, b * c, q2, b * r2 + r);
  }

  lemma Distribute(b: int, c: int, q: int, r: int)
    ensures b * (c * q + r) == (b * c) * q + b * r
  {
  }

  lemma MulMonotone(b: int, x: int, y: int)
    requires b > 0 && 0 <= x <= y
    ensures 0 <= b * x <= b * y
  {
    if x < y {
      MulAtLeast(b, y - x);
      Distribute(b, 1, y - x, x);
    }
    if x > 0 {
      MulAtLeast(b, x);
    }
  }

  /** a == d * q + r with 0 <= r < d fixes q as a / d. */
  lemma DivisionByParts(a: int, d: int, q: int, r: int)
    requires d > 0 && a == d * q + r && 0 <= r < d
    ensures a / d == q
  {
    var q' := a / d;
    var r' := a % d;
    assert a == d * q' + r' && 0 <= r' < d;
    if q' > q {
      assert d * (q' - q) == r - r' by { assert d * q' - d * q == d * (q' - q); }
      MulAtLeast(d, q' - q);
    } else if q' < q {
      assert d * (q - q') == r' - r by { assert d * q - d * q' == d * (q - q'); }
      MulAtLeast(d, q - q');
    }
  }

  lemma {:induction false} MulAtLeast(d: int, k: int)
    requires d > 0 && k >= 1
    ensures d * k >= d
    decreases k
  {
    if k > 1 {
      MulAtLeast(d, k - 1);
      assert d * k == d * (k - 1) + d;
    }
  }

  /**
   * The count and unit formatRelativeTime prints: the seconds while fewer
   * than 60 (negative ones included), then each larger unit until its
   * threshold; months have no upper bound.
   */
  function Breakdown(now: Millis, stamp: Millis): (b: (int, TimeUnit))
    ensures var s := ElapsedSeconds(now, stamp);
      && (b.1 == Seconds <==> s < 60)
      && (b.1 == Minutes <==> 60 <= s < SecondsPerHour)
      && (b.1 == Hours <==> SecondsPerHour <= s < SecondsPerDay)
      && (b.1 == Days <==> SecondsPerDay <= s < SecondsPerMonth)
      && (b.1 == Months <==> SecondsPerMonth <= s)
      && (b.1 == Seconds ==> b.0 == s)
      && (b.1 == Minutes ==> b.0 == s / SecondsPerMinute && 1 <= b.0 < 60)
      && (b.1 == Hours ==> b.0 == s / SecondsPerHour && 1 <= b.0 < 24)
      && (b.1 == Days ==> b.0 == s / SecondsPerDay && 1 <= b.0 < 30)
      && (b.1 == Months ==> b.0 == s / SecondsPerMonth && 1 <= b.0)
  {
    var diffInSeconds := ElapsedSeconds(now, stamp);
    var diffInMinutes := diffInSeconds / 60;
    var diffInHours := diffInMinutes / 60;
    var diffInDays := diffInHours / 24;
    var diffInMonths := diffInDays / 30;
    FloorTwice(diffInSeconds, 60, 60);
    FloorTwice(diffInSeconds, 3600, 24);
    FloorTwice(diffInSeconds, 86400, 30);
    if diffInSeconds < 60 then (diffInSeconds, Seconds)
    else if diffInMinutes < 60 then (diffInMinutes, Minutes)
    else if diffInHours < 24 then (diffInHours, Hours)
    else if diffInDays < 30 then (diffInDays, Days)
    else (diffInMonths, Months)
  }

  /** The singular name of each unit. */
  function UnitName(u: TimeUnit): string
  {
    match u
    case Seconds => "second"
    case Minutes => "minute"
    case Hours => "hour"
    case Days => "day"
    case Months => "month"
  }

  /** The unit word: singular exactly when the count is 1, except that seconds are always plural. */
  function UnitWord(count: int, u: TimeUnit): (w: string)
    ensures w == UnitName(u) + (if count == 1 && u != Seconds then "" else "s")
  {
    match u
    case Seconds => "seconds"
    case Minutes => if count == 1 then "minute" else "minutes"
    case Hours => if count == 1 then "hour" else "hours"
    case Days => if count == 1 then "day" else "days"
    case Months => if count == 1 then "month" else "months"
  }

  /** "n name ago", with the name pluralised by an "s" unless n is 1. */
  function Counted(n: int, name: string): string
  {
    IntToString(n) + " " + name + (if n == 1 then "" else "s") + " ago"
  }

  /**
   * The label for `e` whole seconds, read off the thresholds directly:
   * seconds below a minute (always plural, negative ones included), then
   * whole minutes, hours, days and 30-day months, each singular at a count of 1.
   */
  function LabelFor(e: int): string
  {
    if e < 60 then IntToString(e) + " seconds ago"
    else if e < SecondsPerHour then Counted(e / SecondsPerMinute, "minute")
    else if e < SecondsPerDay then Counted(e / SecondsPerHour, "hour")
    else if e < SecondsPerMonth then Counted(e / SecondsPerDay, "day")
    else Counted(e / SecondsPerMonth, "month")
  }

  /** formatRelativeTime: the cascade of floors prints the label of the whole seconds elapsed. */
  function FormatRelativeTime(now: Millis, stamp: Millis): (s: string)
    ensures s == LabelFor(ElapsedSeconds(now, stamp))
  {
    var (count, u) := Breakdown(now, stamp);
    BreakdownLabel(now, stamp);
    IntToString(count) + " " + UnitWord(count, u) + " ago"
  }

  /** The count and unit of `Breakdown`, printed, give the label of the elapsed seconds. */
  lemma BreakdownLabel(now: Millis, stamp: Millis)
    ensures var b := Breakdown(now, stamp);
      IntToString(b.0) + " " + UnitWord(b.0, b.1) + " ago" == LabelFor(ElapsedSeconds(now, stamp))
  {
    var b := Breakdown(now, stamp);
    var e := ElapsedSeconds(now, stamp);
    match b.1
    case Seconds =>
      assert b.0 == e && e < 60;
      SecondsWord(IntToString(e));
    case Minutes =>
      assert 60 <= e < SecondsPerHour && b.0 == e / SecondsPerMinute;
      CountedLabel(b.0, Minutes);
    case Hours =>
      assert SecondsPerHour <= e < SecondsPerDay && b.0 == e / SecondsPerHour;
      CountedLabel(b.0, Hours);
    case Days =>
      assert SecondsPerDay <= e < SecondsPerMonth && b.0 == e / SecondsPerDay;
      CountedLabel(b.0, Days);
    case Months =>
      assert SecondsPerMonth <= e && b.0 == e / SecondsPerMonth;
      CountedLabel(b.0, Months);
  }

  /** The seconds word, always plural, between the count and "ago". */
  lemma SecondsWord(n: string)
    ensures n + " " + UnitWord(0, Seconds) + " ago" == n + " seconds ago"
  {
    assert " " + "seconds" + " ago" == " seconds ago";
    assert n + " " + "seconds" + " ago" == n + (" " + "seconds" + " ago");
  }

  /** The label of a count in a unit other than seconds is that count of the unit's name. */
  lemma CountedLabel(count: int, u: TimeUnit)
    ensures u != Seconds ==> IntToString(count) + " " + UnitWord(count, u) + " ago" == Counted(count, UnitName(u))
  {
    var n := IntToString(count) + " ";
    var p := if count == 1 && u != Seconds then "" else "s";
    assert n + (UnitName(u) + p) + " ago" == n + UnitName(u) + p + " ago";
  }

  /** A count of 1 takes the singular name. */
  lemma CountedOne(name: string)
    ensures Counted(1, name) == "1 " + name + " ago"
  {
    assert IntToString(1) == "1";
  }

  /** Just under a minute is still counted in seconds. */
  lemma LastSecondsLabel(now: Millis)
    ensures FormatRelativeTime(now, now - 59999) == "59 seconds ago"
  {
    assert ElapsedSeconds(now, now - 59999) == 59;
    FiftyNineText();
  }

  /** Each unit's first value is singular. */
  lemma FirstOfEachUnitIsSingular(now: Millis, stamp: Millis)
    ensures now - stamp == 60000 ==> FormatRelativeTime(now, stamp) == "1 minute ago"
    ensures now - stamp == 3600000 ==> FormatRelativeTime(now, stamp) == "1 hour ago"
    ensures now - stamp == 86400000 ==> FormatRelativeTime(now, stamp) == "1 day ago"
    ensures now - stamp == 30 * 86400000 ==> FormatRelativeTime(now, stamp) == "1 month ago"
  {
    if now - stamp == 60000 {
      FirstOfUnit(now, stamp, SecondsPerMinute, "minute");
      SingularText("minute", "1 minute ago");
    } else if now - stamp == 3600000 {
      FirstOfUnit(now, stamp, SecondsPerHour, "hour");
      SingularText("hour", "1 hour ago");
    } else if now - stamp == 86400000 {
      FirstOfUnit(now, stamp, SecondsPerDay, "day");
      SingularText("day", "1 day ago");
    } else if now - stamp == 30 * 86400000 {
      FirstOfUnit(now, stamp, SecondsPerMonth, "month");
      SingularText("month", "1 month ago");
    }
  }

  /** One unit's length back gives "1 <unit> ago". */
  lemma FirstOfUnit(now: Millis, stamp: Millis, secs: int, name: string)
    requires now - stamp == 1000 * secs
    requires || (secs == SecondsPerMinute && name == "minute") || (secs == SecondsPerHour && name == "hour")
             || (secs == SecondsPerDay && name == "day") || (secs == SecondsPerMonth && name == "month")
    ensures FormatRelativeTime(now, stamp) == "1 " + name + " ago"
  {
    assert ElapsedSeconds(now, stamp) == secs;
    CountedOne(name);
  }

  /** The four singular labels, spelled out. */
  lemma SingularText(name: string, text: string)
    requires || (name == "minute" && text == "1 minute ago") || (name == "hour" && text == "1 hour ago")
             || (name == "day" && text == "1 day ago") || (name == "month" && text == "1 month ago")
    ensures "1 " + name + " ago" == text
  {
  }

  /** Two days back reads "2 days ago", as on the dashboard's activity list. */
  lemma TwoDaysLabel(now: Millis)
    ensures FormatRelativeTime(now, now - 2 * 86400000) == "2 days ago"
  {
    assert ElapsedSeconds(now, now - 2 * 86400000) == 172800;
    assert IntToString(2) == "2";
  }

  /** A timestamp in the future gives a negative count in the always-plural seconds branch. */
  lemma FutureTimestamp(now: Millis, stamp: Millis)
    ensures stamp - now == 5000 ==> FormatRelativeTime(now, stamp) == "-5 seconds ago"
    ensures stamp - now == 1 ==> FormatRelativeTime(now, stamp) == "-1 seconds ago"
  {
    if stamp - now == 5000 {
      assert ElapsedSeconds(now, stamp) == -5;
      MinusFiveText();
    } else if stamp - now == 1 {
      assert ElapsedSeconds(now, stamp) == -1;
      MinusOneText();
    }
  }

  /** The seconds labels of the examples, spelled out. */
  lemma MinusFiveText()
    ensures IntToString(-5) + " seconds ago" == "-5 seconds ago"
  {
    assert NatToString(5) == "5";
    assert IntToString(-5) == "-5";
  }

  lemma MinusOneText()
    ensures IntToString(-1) + " seconds ago" == "-1 seconds ago"
  {
    assert NatToString(1) == "1";
    assert IntToString(-1) == "-1";
  }

  lemma FiftyNineText()
    ensures IntToString(59) + " seconds ago" == "59 seconds ago"
  {
    assert NatToString(5) == "5";
    assert NatToString(59) == "59";
  }
}
