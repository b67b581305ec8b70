/**
 * The time utilities of the board: the day-type test, "HH:mm" parsing, the period
 * resolver and the countdown formatter. The wall clock is not read here: callers pass
 * today's weekday and the number of milliseconds since local midnight.
 */
module Utils {
  import opened Wrappers
  import opened Text
  import opened Types

  /** A weekday index as the clock reports it: 0 = Sunday .. 6 = Saturday. */
  type Weekday = d: int | 0 <= d <= 6

  const MsPerSecond: int := 1000
  const MsPerMinute: int := 60000
  const MsPerHour: int := 3600000

  /** Today is an activity day exactly when its weekday index is listed. */
  function IsActivityDay(activityDays: seq<int>, today: Weekday): (r: bool)
    ensures r <==> exists i :: 0 <= i < |activityDays| && activityDays[i] == today
  {
    today in activityDays
  }

  lemma {:induction false} NoActivityDays(today: Weekday)
    ensures !IsActivityDay([], today)
  {
  }

  // ---------------------------------------------------------------- parsing "HH:mm"

  /**
   * The moment "HH:mm" denotes today, in milliseconds since local midnight, with the
   * seconds and milliseconds set to zero. The string is split on ':' and its first two
   * pieces are read as numbers (later pieces are ignored); a string whose first two
   * pieces are not both numbers gives an invalid time, `None`.
   */
  function ParseTime(timeStr: string): (t: Option<int>)
    ensures t.Some? ==> t.value >= 0 && t.value % MsPerMinute == 0
    ensures ':' !in timeStr ==> t == None
  {
    var parts := Split(timeStr, ':');
    SplitPieces(timeStr, ':');
    if |parts| >= 2 && IsDigits(parts[0]) && IsDigits(parts[1]) then
      Some(DigitsValue(parts[0]) * MsPerHour + DigitsValue(parts[1]) * MsPerMinute)
    else
      None
  }

  /** A well-formed 24-hour "HH:mm" string. */
  predicate IsHHmm(s: string) {
    |s| == 5 && IsDigit(s[0]) && IsDigit(s[1]) && s[2] == ':' && IsDigit(s[3]) && IsDigit(s[4])
    && DigitValue(s[0]) * 10 + DigitValue(s[1]) < 24
    && DigitValue(s[3]) * 10 + DigitValue(s[4]) < 60
  }

  /** The moment a well-formed "HH:mm" string names, in milliseconds since midnight. */
  function HHmmValue(s: string): nat
    requires IsHHmm(s)
  {
    (DigitValue(s[0]) * 10 + DigitValue(s[1])) * 3600000
    + (DigitValue(s[3]) * 10 + DigitValue(s[4])) * 60000
  }

  /** The "HH:mm" text of hour `h` and minute `m`, each zero-padded to two digits. */
  function ClockString(h: nat, m: nat): string {
    PadStart2(NatToString(h)) + ":" + PadStart2(NatToString(m))
  }

  /** Two digit strings joined by a colon parse to that many hours and minutes. */
  lemma {:induction false} ParseGlued(a: string, b: string)
    requires IsDigits(a) && IsDigits(b)
    ensures ParseTime(a + [':'] + b) == Some(DigitsValue(a) * MsPerHour + DigitsValue(b) * MsPerMinute)
  {
    NotInDigits(a, ':');
    NotInDigits(b, ':');
    SplitTwo(a, b, ':');
  }

  /** `timeStr` is digits `a`, a colon, digits `b`, then nothing or a further colon and `rest`'s remainder. */
  predicate TimeShape(timeStr: string, a: string, b: string, rest: string) {
    IsDigits(a) && IsDigits(b) && (rest == [] || rest[0] == ':') && timeStr == a + [':'] + b + rest
  }

  /**
   * The strings `ParseTime` accepts are exactly those that start with digits ':' digits and
   * then end or continue with a further ':' (the pieces after the second are ignored); the
   * value is read from those two digit runs. This is the "only if" half; `ParseTimePrefix`
   * is the "if" half.
   */
  lemma {:induction false} ParseTimeShape(timeStr: string)
    ensures ParseTime(timeStr).Some? ==>
      exists a, b, rest :: TimeShape(timeStr, a, b, rest)
        && ParseTime(timeStr).value == DigitsValue(a) * MsPerHour + DigitsValue(b) * MsPerMinute
  {
    var parts := Split(timeStr, ':');
    SplitPieces(timeStr, ':');
    if ParseTime(timeStr).Some? {
      var a, b := parts[0], parts[1];
      var rest: string := if |parts| == 2 then [] else [':'] + Join(parts[2..], ':');
      JoinFirstTwo(parts, ':');
      assert timeStr == a + [':'] + b + rest;
      assert TimeShape(timeStr, a, b, rest)
        && ParseTime(timeStr).value == DigitsValue(a) * MsPerHour + DigitsValue(b) * MsPerMinute;
    }
  }

  /** Digits ':' digits, followed by nothing or by ':' and anything, parses to those hours and minutes. */
  lemma {:induction false} ParseTimePrefix(timeStr: string, a: string, b: string, rest: string)
    requires TimeShape(timeStr, a, b, rest)
    ensures ParseTime(timeStr) == Some(DigitsValue(a) * MsPerHour + DigitsValue(b) * MsPerMinute)
  {
    NotInDigits(a, ':');
    NotInDigits(b, ':');
    if rest == [] {
      assert a + [':'] + b + rest == a + [':'] + b;
      ParseGlued(a, b);
    } else {
      assert a + [':'] + b + rest == a + [':'] + b + [':'] + rest[1..];
      SplitTwoMore(a, b, rest[1..], ':');
    }
  }

  /** A minutes field that is not all digits gives an invalid time. */
  lemma NonDigitMinutes()
    ensures ParseTime("07:3x") == None
  {
    assert "07:3x" == "07" + [':'] + "3x";
    assert ':' !in "07" && ':' !in "3x";
    SplitTwo("07", "3x", ':');
  }

  /** A field that is not all digits gives an invalid time. */
  lemma NonDigitHours()
    ensures ParseTime("7a:00") == None
  {
    assert "7a:00" == "7a" + [':'] + "00";
    assert ':' !in "7a" && ':' !in "00";
    SplitTwo("7a", "00", ':');
  }

  /** Rendering a time of day and parsing it back gives the same moment. */
  lemma {:induction false} ParseClockString(h: nat, m: nat)
    ensures ParseTime(ClockString(h, m)) == Some(h * MsPerHour + m * MsPerMinute)
  {
    var a, b := PadStart2(NatToString(h)), PadStart2(NatToString(m));
    PadStart2Digits(NatToString(h));
    PadStart2Digits(NatToString(m));
    assert ClockString(h, m) == a + [':'] + b;
    ParseGlued(a, b);
  }

  /** A time of day within the 24-hour clock renders as a well-formed "HH:mm" string. */
  lemma {:induction false} ClockStringIsHHmm(h: nat, m: nat)
    requires h < 24 && m < 60
    ensures IsHHmm(ClockString(h, m))
  {
    var a, b := PadStart2(NatToString(h)), PadStart2(NatToString(m));
    PadStart2Digits(NatToString(h));
    PadStart2Digits(NatToString(m));
    assert ClockString(h, m) == a + [':'] + b;
    TwoDigits(a);
    TwoDigits(b);
  }

  /** Every well-formed "HH:mm" string parses to HH hours and mm minutes. */
  lemma {:induction false} ParseHHmm(s: string)
    requires IsHHmm(s)
    ensures ParseTime(s) == Some(HHmmValue(s))
  {
    var a, b := s[..2], s[3..];
    TwoDigits(a);
    TwoDigits(b);
    assert s == a + [':'] + b;
    ParseGlued(a, b);
  }

  // ---------------------------------------------------------------- the period resolver

  /** What the resolver reports: the running period, the one after it, and whole seconds left. */
  datatype PeriodInfo = PeriodInfo(current: Option<Period>, next: Option<Period>, timeLeft: int)

  /** `now` lies in [start, end) of the period; a malformed start or end never compares true. */
  predicate Contains(p: Period, now: int) {
    var start, end := ParseTime(p.start), ParseTime(p.end);
    start.Some? && end.Some? && start.value <= now < end.value
  }

  /** `now` is before the period's start; false when the start is malformed. */
  predicate StartsAfter(p: Period, now: int) {
    var start := ParseTime(p.start);
    start.Some? && now < start.value
  }

  /** The scan moves past this period without stopping. */
  predicate Passed(p: Period, now: int) {
    !Contains(p, now) && !StartsAfter(p, now)
  }

  /** `periods[i + 1] || null`. */
  function Following(periods: seq<Period>, i: nat): (r: Option<Period>)
    requires i < |periods|
    ensures r.Some? <==> i + 1 < |periods|
    ensures r.Some? ==> r.value == periods[i + 1]
  {
    if i + 1 < |periods| then Some(periods[i + 1]) else None
  }

  /** `Math.floor((end - now) / 1000)` for a period that contains `now`. */
  function SecondsLeft(p: Period, now: int): (s: nat)
    requires Contains(p, now)
    ensures s * MsPerSecond <= ParseTime(p.end).value - now < (s + 1) * MsPerSecond
  {
    (ParseTime(p.end).value - now) / MsPerSecond
  }

  /**
   * The scan from index `i` on: the first period containing `now` is current, with the
   * list entry after it as next; failing that, the first period still to start is next;
   * the scan stops at whichever comes first.
   */
  function ResolveFrom(periods: seq<Period>, i: nat, now: int): (r: PeriodInfo)
    requires i <= |periods|
    ensures r.timeLeft >= 0
    ensures r.current.Some? ==> Contains(r.current.value, now)
    ensures r.current.None? ==> r.timeLeft == 0
    ensures r.current.None? && r.next.Some? ==> StartsAfter(r.next.value, now)
    decreases |periods| - i
  {
    if i == |periods| then PeriodInfo(None, None, 0)
    else if Contains(periods[i], now) then
      PeriodInfo(Some(periods[i]), Following(periods, i), SecondsLeft(periods[i], now))
    else if StartsAfter(periods[i], now) then PeriodInfo(None, Some(periods[i]), 0)
    else ResolveFrom(periods, i + 1, now)
  }

  /** The resolver's answer for the whole list. */
  function Resolve(periods: seq<Period>, now: int): PeriodInfo {
    ResolveFrom(periods, 0, now)
  }

  /**
   * `getCurrentPeriod`: a single pass over the list that stops at the first period that
   * contains `now` or has not started yet.
   */
  method GetCurrentPeriod(periods: seq<Period>, now: int) returns (info: PeriodInfo)
    ensures info == Resolve(periods, now)
  {
    var current: Option<Period> := None;
    var next: Option<Period> := None;
    var timeLeft := 0;
    var i := 0;
    while i < |periods|
      invariant 0 <= i <= |periods|
      invariant ResolveFrom(periods, i, now) == Resolve(periods, now)
      invariant current == None && next == None && timeLeft == 0
    {
      var p := periods[i];
      var start := ParseTime(p.start);
      var end := ParseTime(p.end);
      if start.Some? && end.Some? && start.value <= now && now < end.value {
        current := Some(p);
        timeLeft := (end.value - now) / MsPerSecond;
        next := if i + 1 < |periods| then Some(periods[i + 1]) else None;
        break;
      }
      if start.Some? && now < start.value {
        next := Some(p);
        break;
      }
      i := i + 1;
    }
    info := PeriodInfo(current, next, timeLeft);
  }

  /** Periods the scan passes over do not affect the answer. */
  lemma {:induction false} ResolveSkips(periods: seq<Period>, i: nat, k: nat, now: int)
    requires i <= k <= |periods|
    requires forall j :: i <= j < k ==> Passed(periods[j], now)
    ensures ResolveFrom(periods, i, now) == ResolveFrom(periods, k, now)
    decreases k - i
  {
    if i < k {
      assert !Contains(periods[i], now) && !StartsAfter(periods[i], now);
      ResolveSkips(periods, i + 1, k, now);
    }
  }

  /** The first period containing `now`, with none before it still to start, is current. */
  lemma {:induction false} FirstContainingIsCurrent(periods: seq<Period>, now: int, k: nat)
    requires k < |periods| && Contains(periods[k], now)
    requires forall j :: 0 <= j < k ==> Passed(periods[j], now)
    ensures Resolve(periods, now)
      == PeriodInfo(Some(periods[k]), Following(periods, k), SecondsLeft(periods[k], now))
  {
    ResolveSkips(periods, 0, k, now);
  }

  /** The first period still to start, reached before any containing period, is next. */
  lemma {:induction false} FirstUpcomingIsNext(periods: seq<Period>, now: int, k: nat)
    requires k < |periods| && !Contains(periods[k], now) && StartsAfter(periods[k], now)
    requires forall j :: 0 <= j < k ==> Passed(periods[j], now)
    ensures Resolve(periods, now) == PeriodInfo(None, Some(periods[k]), 0)
  {
    ResolveSkips(periods, 0, k, now);
  }

  /** A scan that never stops reports neither a current nor a next period. */
  lemma {:induction false} AllPassedIsIdle(periods: seq<Period>, now: int)
    requires forall j :: 0 <= j < |periods| ==> Passed(periods[j], now)
    ensures Resolve(periods, now) == PeriodInfo(None, None, 0)
  {
    ResolveSkips(periods, 0, |periods|, now);
  }

  /** Every answer comes from one of the three lemmas above: the scan's first stop decides it. */
  lemma {:induction false} CurrentIsFirstContaining(periods: seq<Period>, now: int)
    ensures var r := Resolve(periods, now);
      r.current.Some? ==>
        (exists k :: 0 <= k < |periods| && r.current.value == periods[k]
           && Contains(periods[k], now) && (forall j :: 0 <= j < k ==> Passed(periods[j], now))
           && r.next == Following(periods, k) && r.timeLeft == SecondsLeft(periods[k], now))
  {
    var k := FirstStop(periods, now, 0);
    ResolveSkips(periods, 0, k, now);
  }

  /** The index where the scan from `i` stops, or the list length. */
  function FirstStop(periods: seq<Period>, now: int, i: nat): (k: nat)
    requires i <= |periods|
    ensures i <= k <= |periods|
    ensures forall j :: i <= j < k ==> Passed(periods[j], now)
    ensures k < |periods| ==> !Passed(periods[k], now)
    decreases |periods| - i
  {
    if i == |periods| || !Passed(periods[i], now) then i else FirstStop(periods, now, i + 1)
  }

  /**
   * When no period contains `now`: nothing is current, nothing is left, and next is the
   * first period in list order still to start, or none when every period has started.
   */
  lemma {:induction false} NoneContaining(periods: seq<Period>, now: int)
    requires forall j :: 0 <= j < |periods| ==> !Contains(periods[j], now)
    ensures var r := Resolve(periods, now);
      r.current == None && r.timeLeft == 0
      && (r.next == None <==> forall j :: 0 <= j < |periods| ==> !StartsAfter(periods[j], now))
      && (r.next.Some? ==>
            (exists k :: 0 <= k < |periods| && r.next.value == periods[k]
               && StartsAfter(periods[k], now) && forall j :: 0 <= j < k ==> !StartsAfter(periods[j], now)))
  {
    var k := FirstStop(periods, now, 0);
    ResolveSkips(periods, 0, k, now);
  }

  /** A period with a malformed start or end is never the current one. */
  lemma {:induction false} MalformedNeverCurrent(periods: seq<Period>, now: int, p: Period)
    requires ParseTime(p.start).None? || ParseTime(p.end).None?
    ensures Resolve(periods, now).current != Some(p)
  {
  }

  /** A period with a malformed start is never chosen as next by the "still to start" rule. */
  lemma {:induction false} MalformedStartNeverUpcoming(periods: seq<Period>, now: int, p: Period)
    requires ParseTime(p.start).None?
    ensures Resolve(periods, now).current.None? ==> Resolve(periods, now).next != Some(p)
  {
  }

  /**
   * The "still to start" rule reads only the start: a period whose start is valid and still
   * ahead is reported as next even when its end is malformed.
   */
  lemma {:induction false} MalformedEndCanBeNext(p: Period, now: int)
    requires ParseTime(p.start).Some? && now < ParseTime(p.start).value && ParseTime(p.end).None?
    ensures Resolve([p], now) == PeriodInfo(None, Some(p), 0)
  {
    FirstUpcomingIsNext([p], now, 0);
  }

  // ---------------------------------------------------------------- ordered period lists

  /** Start and end are both valid, and the start is strictly earlier. */
  predicate WellFormed(p: Period) {
    ParseTime(p.start).Some? && ParseTime(p.end).Some?
    && ParseTime(p.start).value < ParseTime(p.end).value
  }

  /** Ascending and non-overlapping: each period ends no later than the next one starts. */
  predicate Ordered(periods: seq<Period>) {
    (forall i :: 0 <= i < |periods| ==> WellFormed(periods[i]))
    && forall i :: 0 <= i < |periods| - 1 ==>
         ParseTime(periods[i].end).value <= ParseTime(periods[i + 1].start).value
  }

  /** In an ordered list every earlier period ends before any later one starts. */
  lemma {:induction false} OrderedPairwise(periods: seq<Period>, i: nat, j: nat)
    requires Ordered(periods) && i < j < |periods|
    ensures ParseTime(periods[i].end).value <= ParseTime(periods[j].start).value
    decreases j - i
  {
    if i + 1 < j {
      OrderedPairwise(periods, i + 1, j);
      assert WellFormed(periods[i + 1]);
    }
  }

  /** In an ordered list at most one period contains any instant. */
  lemma {:induction false} AtMostOneActive(periods: seq<Period>, now: int, i: nat, j: nat)
    requires Ordered(periods) && i < |periods| && j < |periods|
    requires Contains(periods[i], now) && Contains(periods[j], now)
    ensures i == j
  {
    if i < j {
      OrderedPairwise(periods, i, j);
    } else if j < i {
      OrderedPairwise(periods, j, i);
    }
  }

  /** In an ordered list the resolver reports exactly the period that contains `now`, if any. */
  lemma {:induction false} OrderedResolve(periods: seq<Period>, now: int, k: nat)
    requires Ordered(periods) && k < |periods|
    ensures Contains(periods[k], now) <==> Resolve(periods, now).current == Some(periods[k])
  {
    var s := FirstStop(periods, now, 0);
    ResolveSkips(periods, 0, s, now);
    if Contains(periods[k], now) {
      assert s <= k;
      if s < k {
        if Contains(periods[s], now) {
          AtMostOneActive(periods, now, s, k);
        } else {
          OrderedPairwise(periods, s, k);
        }
      }
    }
  }

  // ---------------------------------------------------------------- the countdown text

  /** `s % 60` as JavaScript computes it: the remainder takes the sign of the dividend. */
  function JsRem60(s: int): (r: int)
    ensures -60 < r < 60
    ensures s >= 0 ==> 0 <= r && (s - r) % 60 == 0
    ensures s < 0 ==> r <= 0 && (s - r) % 60 == 0
  {
    if s >= 0 then s % 60 else -((-s) % 60)
  }

  /**
   * `formatTime`: whole minutes (rounded down), a colon, the seconds; each padded to two
   * digits. For a non-negative count the text ends in ':' and two digits, and the digits
   * before the colon and after it spell the minutes and the seconds of the count; the
   * minutes carry no zero beyond the padding to two digits.
   */
  function FormatTime(seconds: int): (r: string)
    ensures |r| >= 5
    ensures seconds >= 0 ==> CountdownText(r, seconds)
  {
    var a := PadStart2(IntToString(seconds / 60));
    var b := PadStart2(IntToString(JsRem60(seconds)));
    if seconds >= 0 then
      assert IntToString(seconds / 60) == NatToString(seconds / 60);
      assert IntToString(JsRem60(seconds)) == NatToString(seconds % 60);
      FormatFields(seconds, a, b);
      a + ":" + b
    else
      a + ":" + b
  }

  /**
   * `r` reads "m:ss" for the count: at least five characters, ':' before the last two,
   * minutes `m` (two digits, or more without a leading zero) and seconds `ss` (two digits,
   * below 60) with m * 60 + ss == seconds.
   */
  predicate CountdownText(r: string, seconds: nat) {
    |r| >= 5 &&
    var m, ss := r[..|r| - 3], r[|r| - 2..];
    r[|r| - 3] == ':' && |ss| == 2 && IsDigits(m) && IsDigits(ss)
    && DigitsValue(ss) < 60 && DigitsValue(m) * 60 + DigitsValue(ss) == seconds
    && (|m| == 2 || m[0] != '0')
  }

  /** The minutes and seconds fields of the countdown text spell out the count. */
  lemma {:induction false} FormatFields(seconds: nat, a: string, b: string)
    requires a == PadStart2(NatToString(seconds / 60)) && b == PadStart2(NatToString(seconds % 60))
    ensures CountdownText(a + ":" + b, seconds)
  {
    PaddedCount(seconds / 60);
    PaddedCount(seconds % 60);
    GlueColon(a, b);
  }

  /**
   * A padded count is a digit string of at least two digits with that value; two digits
   * below 100, and no leading zero when it is longer than two.
   */
  lemma {:induction false} PaddedCount(n: nat)
    ensures var s := PadStart2(NatToString(n));
      IsDigits(s) && DigitsValue(s) == n && |s| >= 2 && (n < 100 ==> |s| == 2)
      && (|s| == 2 || s[0] != '0')
  {
    PadStart2Digits(NatToString(n));
    if 10 <= n < 100 {
      assert NatToString(n) == NatToString(n / 10) + [DigitChar(n % 10)];
    }
  }

  /** Where the colon and the two fields sit in `a + ":" + b` when `b` has two characters. */
  lemma {:induction false} GlueColon(a: string, b: string)
    requires |b| == 2
    ensures var r := a + ":" + b;
      |r| == |a| + 3 && r[|r| - 3] == ':' && r[..|r| - 3] == a && r[|r| - 2..] == b
  {
  }

  /**
   * For a non-negative count the text splits at its one colon into minutes `m` (two digits,
   * or more without a leading zero) and seconds `ss` (exactly two digits) with
   * m * 60 + ss == seconds, ss < 60.
   */
  lemma {:induction false} FormatTimeRoundTrip(seconds: nat)
    ensures var parts := Split(FormatTime(seconds), ':');
      |parts| == 2 && IsDigits(parts[0]) && IsDigits(parts[1])
      && |parts[0]| >= 2 && (|parts[0]| == 2 || parts[0][0] != '0') && |parts[1]| == 2
      && DigitsValue(parts[1]) < 60
      && DigitsValue(parts[0]) * 60 + DigitsValue(parts[1]) == seconds
  {
    var a, b := PadStart2(NatToString(seconds / 60)), PadStart2(NatToString(seconds % 60));
    assert FormatTime(seconds) == a + [':'] + b;
    PaddedCount(seconds / 60);
    PaddedCount(seconds % 60);
    NotInDigits(a, ':');
    NotInDigits(b, ':');
    SplitTwo(a, b, ':');
  }

  /** 1500 seconds read "25:00". */
  lemma FormatTimeExample()
    ensures FormatTime(1500) == "25:00"
  {
    assert 1500 / 60 == 25 && JsRem60(1500) == 0;
    assert NatToString(25) == "25" by {
      assert NatToString(2) == "2";
    }
    assert PadStart2(IntToString(25)) == "25";
    assert PadStart2(IntToString(0)) == "00";
  }
}
