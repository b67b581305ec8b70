/**
 * Facts about the configuration the board ships with: its schedules are well-formed and
 * ordered, so the resolver's first-match scan is exact on them, and the worked examples of
 * the board's behaviour hold of it.
 */
module DefaultFacts {
  import opened Wrappers
  import opened Text
  import opened Types
  import opened Utils
  import opened Display

  /** Every start and end is a well-formed 24-hour "HH:mm" string. */
  predicate AllHHmm(periods: seq<Period>) {
    forall i :: 0 <= i < |periods| ==> IsHHmm(periods[i].start) && IsHHmm(periods[i].end)
  }

  /** The period's start and end are well-formed "HH:mm" strings, the start the earlier. */
  predicate WrittenWellFormed(p: Period) {
    IsHHmm(p.start) && IsHHmm(p.end) && HHmmValue(p.start) < HHmmValue(p.end)
  }

  /** The first period's written end is no later than the second's written start. */
  predicate WrittenBefore(p: Period, q: Period) {
    IsHHmm(p.end) && IsHHmm(q.start) && HHmmValue(p.end) <= HHmmValue(q.start)
  }

  /** A list of well-formed strings that is ordered by its written times is ordered for the resolver. */
  lemma {:induction false} OrderedFromText(periods: seq<Period>)
    requires forall i :: 0 <= i < |periods| ==> WrittenWellFormed(periods[i])
    requires forall i :: 0 <= i < |periods| - 1 ==> WrittenBefore(periods[i], periods[i + 1])
    ensures AllHHmm(periods) && Ordered(periods)
  {
    forall i | 0 <= i < |periods|
      ensures ParseTime(periods[i].start) == Some(HHmmValue(periods[i].start))
      ensures ParseTime(periods[i].end) == Some(HHmmValue(periods[i].end))
    {
      ParseHHmm(periods[i].start);
      ParseHHmm(periods[i].end);
    }
  }

  // The four facts about the written default times are each proved in two halves of the
  // list (the first five periods and the rest), which keeps every proof small.

  /** Each of the first five default normal periods is written as two well-formed times, the start earlier. */
  lemma NormalTextWellFormedEarly()
    ensures forall i :: 0 <= i < 5 ==> WrittenWellFormed(DefaultNormal[i])
  {
  }

  /** Each of the last five default normal periods is written as two well-formed times, the start earlier. */
  lemma NormalTextWellFormedLate()
    ensures forall i :: 5 <= i < 10 ==> WrittenWellFormed(DefaultNormal[i])
  {
  }

  /** Each of the first five default normal periods ends no later than the written start of the next. */
  lemma NormalTextAscendingEarly()
    ensures forall i :: 0 <= i < 5 ==> WrittenBefore(DefaultNormal[i], DefaultNormal[i + 1])
  {
  }

  /** Each of the sixth to ninth default normal periods ends no later than the written start of the next. */
  lemma NormalTextAscendingLate()
    ensures forall i :: 5 <= i < 9 ==> WrittenBefore(DefaultNormal[i], DefaultNormal[i + 1])
  {
  }

  /** Each of the first five default activity periods is written as two well-formed times, the start earlier. */
  lemma ActivityTextWellFormedEarly()
    ensures forall i :: 0 <= i < 5 ==> WrittenWellFormed(DefaultActivity[i])
  {
  }

  /** Each of the last five default activity periods is written as two well-formed times, the start earlier. */
  lemma ActivityTextWellFormedLate()
    ensures forall i :: 5 <= i < 10 ==> WrittenWellFormed(DefaultActivity[i])
  {
  }

  /** Each of the first five default activity periods ends no later than the written start of the next. */
  lemma ActivityTextAscendingEarly()
    ensures forall i :: 0 <= i < 5 ==> WrittenBefore(DefaultActivity[i], DefaultActivity[i + 1])
  {
  }

  /** Each of the sixth to ninth default activity periods ends no later than the written start of the next. */
  lemma ActivityTextAscendingLate()
    ensures forall i :: 5 <= i < 9 ==> WrittenBefore(DefaultActivity[i], DefaultActivity[i + 1])
  {
  }

  /** Every default start and end parses; the normal list is ascending and non-overlapping. */
  lemma DefaultNormalOrdered()
    ensures AllHHmm(DefaultNormal) && Ordered(DefaultNormal)
  {
    NormalTextWellFormedEarly();
    NormalTextWellFormedLate();
    NormalTextAscendingEarly();
    NormalTextAscendingLate();
    OrderedFromText(DefaultNormal);
  }

  /** Every default start and end parses; the activity list is ascending and non-overlapping. */
  lemma DefaultActivityOrdered()
    ensures AllHHmm(DefaultActivity) && Ordered(DefaultActivity)
  {
    ActivityTextWellFormedEarly();
    ActivityTextWellFormedLate();
    ActivityTextAscendingEarly();
    ActivityTextAscendingLate();
    OrderedFromText(DefaultActivity);
  }

  /** Period ids run 1..10 in list order, so they are unique within each list. */
  lemma DefaultIds()
    ensures |DefaultNormal| == 10 && |DefaultActivity| == 10
    ensures forall i :: 0 <= i < 10 ==> DefaultNormal[i].id == i + 1 && DefaultActivity[i].id == i + 1
    ensures forall i, j :: 0 <= i < j < 10 ==> DefaultNormal[i].id != DefaultNormal[j].id
    ensures forall i, j :: 0 <= i < j < 10 ==> DefaultActivity[i].id != DefaultActivity[j].id
  {
  }

  /** The parts of the default configuration the engines read. */
  lemma DefaultSettingsParts()
    ensures DefaultSettings.activityDays == [2]
    ensures DefaultSettings.schedule == ScheduleDay(DefaultNormal, DefaultActivity)
    ensures DefaultSettings.media == DefaultMedia && DefaultSettings.goals == DefaultGoals
    ensures DefaultSettings.logoDuration == 5 && DefaultSettings.goalsDuration == 10
    ensures DefaultSettings.news == DefaultNews && DefaultSettings.newsSpeed == 25
  {
  }

  /** Tuesday (2) is the only default activity day; every listed day is a weekday index. */
  lemma DefaultActivityDays()
    ensures forall i :: 0 <= i < |DefaultSettings.activityDays| ==> 0 <= DefaultSettings.activityDays[i] <= 6
    ensures forall d: Weekday :: IsActivityDay(DefaultSettings.activityDays, d) <==> d == 2
  {
    DefaultSettingsParts();
  }

  /** Every default duration is positive, so no default timer fires with a zero delay. */
  lemma DefaultDurations()
    ensures DefaultMedia[0].duration == 10 && DefaultMedia[1].duration == 15
    ensures forall st: MediaState :: MediaDwell(st, DefaultMedia, 5) >= 1000
  {
    forall st: MediaState ensures MediaDwell(st, DefaultMedia, 5) >= 1000 {
      DwellPositive(st, DefaultMedia, 5);
    }
  }

  /** With the default gallery the selected item always exists, so the panel never falls back to 5 s. */
  lemma {:induction false} DefaultMediaAlwaysActive(steps: nat)
    ensures ActiveMedia(DefaultMedia, MediaRun(InitialMedia, |DefaultMedia|, steps).mediaIndex).Some?
  {
    MediaIndexStaysInRange(|DefaultMedia|, steps);
  }

  /**
   * 07:40:00 on a normal day: the first lesson (id 2, 07:25-08:05) runs with 1500 s left,
   * which the countdown shows as "25:00" (FormatTimeExample), and the second lesson is next.
   */
  lemma {:induction false} FirstLessonExample(now: int)
    requires now == 7 * MsPerHour + 40 * MsPerMinute
    ensures Resolve(DefaultNormal, now) == PeriodInfo(Some(DefaultNormal[1]), Some(DefaultNormal[2]), 1500)
    ensures DefaultNormal[1].id == 2
  {
    FirstLessonRuns(now);
    SecondRuns(DefaultNormal, now);
  }

  /** At 07:40:00 the morning gathering (07:10-07:25) is over and the first lesson runs. */
  lemma {:induction false} FirstLessonRuns(now: int)
    requires now == 7 * MsPerHour + 40 * MsPerMinute
    ensures Passed(DefaultNormal[0], now) && Contains(DefaultNormal[1], now)
    ensures Contains(DefaultNormal[1], now) ==> SecondsLeft(DefaultNormal[1], now) == 1500
  {
    ParseHHmm(DefaultNormal[0].start);
    assert HHmmValue(DefaultNormal[0].start) == 7 * MsPerHour + 10 * MsPerMinute;
    ParseHHmm(DefaultNormal[0].end);
    assert HHmmValue(DefaultNormal[0].end) == 7 * MsPerHour + 25 * MsPerMinute;
    ParseHHmm(DefaultNormal[1].end);
    assert HHmmValue(DefaultNormal[1].end) == 8 * MsPerHour + 5 * MsPerMinute;
  }

  /** A list whose first period is over and whose second one runs resolves to the second. */
  lemma {:induction false} SecondRuns(periods: seq<Period>, now: int)
    requires |periods| >= 3 && Passed(periods[0], now) && Contains(periods[1], now)
    ensures Resolve(periods, now)
      == PeriodInfo(Some(periods[1]), Some(periods[2]), SecondsLeft(periods[1], now))
  {
    FirstContainingIsCurrent(periods, now, 1);
  }

  /**
   * On a configuration whose activity day is Tuesday and whose schedules are the default
   * ones, Tuesday resolves the activity list: at 07:40:00 the assembly (07:10-07:45) runs
   * with 300 s left; on any other day the same instant is in the normal first lesson.
   */
  lemma {:induction false} ActivityDayExample(settings: AppSettings, now: int)
    requires settings.activityDays == [2]
    requires settings.schedule == ScheduleDay(DefaultNormal, DefaultActivity)
    requires now == 7 * MsPerHour + 40 * MsPerMinute
    ensures Resolve(TodaySchedule(settings, 2), now)
      == PeriodInfo(Some(DefaultActivity[0]), Some(DefaultActivity[1]), 300)
    ensures forall d: Weekday :: d != 2 ==>
      Resolve(TodaySchedule(settings, d), now).current == Some(DefaultNormal[1])
  {
    ParseHHmm(DefaultActivity[0].start);
    assert HHmmValue(DefaultActivity[0].start) == 7 * MsPerHour + 10 * MsPerMinute;
    ParseHHmm(DefaultActivity[0].end);
    assert HHmmValue(DefaultActivity[0].end) == 7 * MsPerHour + 45 * MsPerMinute;
    assert Contains(DefaultActivity[0], now);
    assert SecondsLeft(DefaultActivity[0], now) == 300;
    FirstContainingIsCurrent(DefaultActivity, now, 0);
    FirstLessonExample(now);
  }
}
