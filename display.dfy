/**
 * The display screen's engines: the schedule chosen for today, the media/logo
 * alternator, the goals paginator and the views derived from their cursors.
 * Timers are not modelled as such: each timer firing is one call of a step method.
 */
module Display {
  import opened Wrappers
  import opened Types
  import opened Utils
  import opened Arith

  // ---------------------------------------------------------------- today's schedule

  /** The period list today runs on: the activity list on activity days, the normal one otherwise. */
  function TodaySchedule(settings: AppSettings, today: Weekday): (periods: seq<Period>)
    ensures today in settings.activityDays ==> periods == settings.schedule.activity
    ensures today !in settings.activityDays ==> periods == settings.schedule.normal
  {
    if IsActivityDay(settings.activityDays, today) then settings.schedule.activity
    else settings.schedule.normal
  }

  // ---------------------------------------------------------------- media/logo alternator

  /** The gallery panel: which media item is selected, and whether the logo covers it. */
  datatype MediaState = MediaState(mediaIndex: nat, isShowingLogo: bool)

  /** The panel starts on the first media item. */
  const InitialMedia: MediaState := MediaState(0, false)

  /**
   * One expiry of the gallery timer, with `mediaCount` the length of the media list at
   * that moment: nothing happens on an empty list; media gives way to the logo; the logo
   * gives way to the following media item, wrapping to the first.
   */
  function NextMediaState(st: MediaState, mediaCount: nat): (r: MediaState)
    ensures mediaCount == 0 ==> r == st
    ensures mediaCount > 0 ==> r.isShowingLogo != st.isShowingLogo
    ensures r.mediaIndex != st.mediaIndex ==> st.isShowingLogo && !r.isShowingLogo
    ensures mediaCount > 0 && st.isShowingLogo ==> r.mediaIndex < mediaCount
    ensures mediaCount > 0 && st.isShowingLogo ==> r.mediaIndex == (st.mediaIndex + 1) % mediaCount
  {
    if mediaCount == 0 then st
    else if st.isShowingLogo then MediaState((st.mediaIndex + 1) % mediaCount, false)
    else MediaState(st.mediaIndex, true)
  }

  /** The state after `steps` expiries with an unchanged list length. */
  function MediaRun(st: MediaState, mediaCount: nat, steps: nat): MediaState {
    if steps == 0 then st else NextMediaState(MediaRun(st, mediaCount, steps - 1), mediaCount)
  }

  /**
   * How long the current state is held, in milliseconds: the logo duration while the logo
   * shows; the selected item's duration while it exists; 5000 when there is no such item.
   * Durations are used as configured, zero and negative ones included.
   */
  function MediaDwell(st: MediaState, media: seq<MediaItem>, logoDuration: int): (d: int)
    ensures st.isShowingLogo ==> d == logoDuration * MsPerSecond
    ensures !st.isShowingLogo && ActiveMedia(media, st.mediaIndex).Some? ==>
      d == ActiveMedia(media, st.mediaIndex).value.duration * MsPerSecond
    ensures !st.isShowingLogo && ActiveMedia(media, st.mediaIndex).None? ==> d == 5000
  {
    if st.isShowingLogo then logoDuration * MsPerSecond
    else if st.mediaIndex < |media| then media[st.mediaIndex].duration * MsPerSecond
    else 5000
  }

  /** The media item on screen under the logo flag, if the index selects one. */
  function ActiveMedia(media: seq<MediaItem>, mediaIndex: nat): (r: Option<MediaItem>)
    ensures r.Some? <==> mediaIndex < |media|
    ensures r.Some? ==> r.value == media[mediaIndex]
  {
    if mediaIndex < |media| then Some(media[mediaIndex]) else None
  }

  /** With an empty media list the panel never changes. */
  lemma {:induction false} EmptyMediaFrozen(st: MediaState, steps: nat)
    ensures MediaRun(st, 0, steps) == st
  {
    if steps > 0 {
      EmptyMediaFrozen(st, steps - 1);
    }
  }

  /** With a non-empty list the logo flag flips on every expiry. */
  lemma {:induction false} MediaAlternates(st: MediaState, mediaCount: nat, steps: nat)
    requires mediaCount > 0
    ensures MediaRun(st, mediaCount, steps).isShowingLogo == (st.isShowingLogo != (steps % 2 == 1))
  {
    if steps > 0 {
      MediaAlternates(st, mediaCount, steps - 1);
    }
  }

  /**
   * Starting on media item `i`, each media -> logo -> media cycle advances the index by
   * exactly one (wrapping), and the logo comes between every two media states.
   */
  lemma {:induction false} MediaCycles(i: nat, mediaCount: nat, cycles: nat)
    requires i < mediaCount
    ensures MediaRun(MediaState(i, false), mediaCount, 2 * cycles)
      == MediaState((i + cycles) % mediaCount, false)
    ensures MediaRun(MediaState(i, false), mediaCount, 2 * cycles + 1)
      == MediaState((i + cycles) % mediaCount, true)
  {
    var st := MediaState(i, false);
    if cycles == 0 {
      ModUnique(i, mediaCount, 0, i);
    } else {
      var c := cycles - 1;
      MediaCycles(i, mediaCount, c);
      var even := 2 * c;
      assert 2 * cycles == even + 2;
      assert MediaRun(st, mediaCount, even + 1) == MediaState((i + c) % mediaCount, true);
      assert MediaRun(st, mediaCount, even + 2)
        == NextMediaState(MediaState((i + c) % mediaCount, true), mediaCount);
      ModAdd(i + c, 1, mediaCount);
    }
  }

  /** From the initial state the selected index always names an item of a non-empty list. */
  lemma {:induction false} MediaIndexStaysInRange(mediaCount: nat, steps: nat)
    requires mediaCount > 0
    ensures MediaRun(InitialMedia, mediaCount, steps).mediaIndex < mediaCount
  {
    MediaCycles(0, mediaCount, steps / 2);
    assert steps == 2 * (steps / 2) || steps == 2 * (steps / 2) + 1;
  }

  /**
   * With every configured duration positive, every state is held for at least a second,
   * so the gallery timer never re-fires immediately.
   */
  lemma {:induction false} DwellPositive(st: MediaState, media: seq<MediaItem>, logoDuration: int)
    requires logoDuration > 0
    requires forall i :: 0 <= i < |media| ==> media[i].duration > 0
    ensures MediaDwell(st, media, logoDuration) >= MsPerSecond
  {
  }

  /** Durations are not clamped: a zero duration yields a zero delay. */
  lemma {:induction false} DwellUnclamped(media: seq<MediaItem>, i: nat)
    requires i < |media| && media[i].duration == 0
    ensures MediaDwell(MediaState(i, false), media, 0) == 0
    ensures MediaDwell(MediaState(i, true), media, 0) == 0
  {
  }

  /**
   * The default gallery of two items (10 s and 15 s) with a 5 s logo: media 0 for 10 s,
   * logo for 5 s, media 1 for 15 s, logo for 5 s, then media 0 again.
   */
  lemma DefaultMediaTrace()
    ensures var n, logo := |DefaultMedia|, DefaultSettings.logoDuration;
      MediaRun(InitialMedia, n, 1) == MediaState(0, true)
      && MediaRun(InitialMedia, n, 2) == MediaState(1, false)
      && MediaRun(InitialMedia, n, 3) == MediaState(1, true)
      && MediaRun(InitialMedia, n, 4) == MediaState(0, false)
      && MediaDwell(MediaRun(InitialMedia, n, 0), DefaultMedia, logo) == 10000
      && MediaDwell(MediaRun(InitialMedia, n, 1), DefaultMedia, logo) == 5000
      && MediaDwell(MediaRun(InitialMedia, n, 2), DefaultMedia, logo) == 15000
      && MediaDwell(MediaRun(InitialMedia, n, 3), DefaultMedia, logo) == 5000
  {
    MediaCycles(0, 2, 1);
    MediaCycles(0, 2, 2);
  }

  // ---------------------------------------------------------------- goals paginator

  /**
   * One firing of the goals interval: the cursor moves two places on, modulo the list
   * length; with an empty list no interval runs and the cursor stays.
   */
  function NextGoalIndex(goalIndex: nat, goalCount: nat): (r: nat)
    ensures goalCount == 0 ==> r == goalIndex
    ensures goalCount > 0 ==> r < goalCount && (goalIndex + 2 - r) % goalCount == 0
  {
    if goalCount == 0 then goalIndex
    else
      var r := (goalIndex + 2) % goalCount;
      ModUnique(goalIndex + 2 - r, goalCount, (goalIndex + 2) / goalCount, 0);
      r
  }

  /** The cursor after `steps` firings with an unchanged list length. */
  function GoalRun(goalIndex: nat, goalCount: nat, steps: nat): nat {
    if steps == 0 then goalIndex else NextGoalIndex(GoalRun(goalIndex, goalCount, steps - 1), goalCount)
  }

  /** From cursor 0 the cursor after k firings is 2k modulo the length. */
  lemma {:induction false} GoalRunFromZero(goalCount: nat, steps: nat)
    requires goalCount > 0
    ensures GoalRun(0, goalCount, steps) == (2 * steps) % goalCount
  {
    if steps == 0 {
    } else {
      GoalRunFromZero(goalCount, steps - 1);
      ModAdd(2 * (steps - 1), 2, goalCount);
    }
  }

  /** Firings until the cursor is back at 0: half the length when even, the length when odd. */
  function GoalPeriod(goalCount: nat): (p: nat)
    requires goalCount > 0
    ensures p > 0 && 2 * p % goalCount == 0
  {
    if goalCount % 2 == 0 then
      ModUnique(goalCount, goalCount, 1, 0);
      goalCount / 2
    else
      ModUnique(2 * goalCount, goalCount, 2, 0);
      goalCount
  }

  /** The cursor is back at 0 exactly after a whole number of periods, and never in between. */
  lemma {:induction false} GoalCycle(goalCount: nat, steps: nat)
    requires goalCount > 0
    ensures GoalRun(0, goalCount, steps) == 0 <==> steps % GoalPeriod(goalCount) == 0
  {
    GoalRunFromZero(goalCount, steps);
    if goalCount % 2 == 0 {
      GoalCycleEven(goalCount, steps);
    } else {
      GoalCycleOdd(goalCount, steps);
    }
  }

  lemma {:induction false} GoalCycleEven(n: nat, steps: nat)
    requires n > 0 && n % 2 == 0
    ensures (2 * steps) % n == 0 <==> steps % (n / 2) == 0
  {
    var p := n / 2;
    var q, r := steps / p, steps % p;
    assert steps == p * q + r;
    assert 2 * steps == n * q + 2 * r by {
      assert 2 * (p * q) == (2 * p) * q;
    }
    ModUnique(2 * steps, n, q, 2 * r);
  }

  lemma {:induction false} GoalCycleOdd(n: nat, steps: nat)
    requires n % 2 == 1
    ensures (2 * steps) % n == 0 <==> steps % n == 0
  {
    var q, r := steps / n, steps % n;
    assert steps == n * q + r;
    assert 2 * steps == n * (2 * q) + 2 * r by {
      assert 2 * (n * q) == n * (2 * q);
    }
    if 2 * r < n {
      ModUnique(2 * steps, n, 2 * q, 2 * r);
    } else {
      // the remainder 2 * r - n is odd, hence not 0
      assert 2 * steps == n * (2 * q + 1) + (2 * r - n);
      ModUnique(2 * steps, n, 2 * q + 1, 2 * r - n);
    }
  }

  /**
   * The two goals on screen: the one at the cursor and the one after it, wrapping; entries
   * that do not exist are dropped. One goal is shown twice when the list has one entry.
   */
  function CurrentGoals(goals: seq<StrategicGoal>, goalIndex: nat): (page: seq<StrategicGoal>)
    ensures |page| <= 2
    ensures goals == [] ==> page == []
    ensures goalIndex < |goals| ==> page == [goals[goalIndex], goals[(goalIndex + 1) % |goals|]]
    ensures 0 < |goals| <= goalIndex ==> page == [goals[(goalIndex + 1) % |goals|]]
    ensures forall i :: 0 <= i < |page| ==> page[i] in goals
  {
    (if goalIndex < |goals| then [goals[goalIndex]] else [])
    + (if |goals| > 0 then [goals[(goalIndex + 1) % |goals|]] else [])
  }

  /** Within the first half-length firings from cursor 0, every goal has been on screen. */
  lemma {:induction false} EveryGoalShown(goals: seq<StrategicGoal>, j: nat)
    requires j < |goals|
    ensures exists k: nat :: k <= j / 2 && goals[j] in CurrentGoals(goals, GoalRun(0, |goals|, k))
  {
    var n, k := |goals|, j / 2;
    assert j == 2 * k || j == 2 * k + 1;
    GoalRunFromZero(n, k);
    ModUnique(2 * k, n, 0, 2 * k);
    assert GoalRun(0, n, k) == 2 * k;
    if j != 2 * k {
      ModUnique(j, n, 0, j);
    }
    OnPage(goals, 2 * k, j);
    assert goals[j] in CurrentGoals(goals, GoalRun(0, n, k));
  }

  /** The goal at the cursor and the one after it (wrapping) are both on the page. */
  lemma {:induction false} OnPage(goals: seq<StrategicGoal>, goalIndex: nat, j: nat)
    requires goalIndex < |goals| && j < |goals|
    requires j == goalIndex || j == (goalIndex + 1) % |goals|
    ensures goals[j] in CurrentGoals(goals, goalIndex)
  {
    var page := CurrentGoals(goals, goalIndex);
    assert page[0] == goals[goalIndex] && page[1] == goals[(goalIndex + 1) % |goals|];
  }

  /** The default ten goals: the cursor runs 0, 2, 4, 6, 8 and is back at 0 after five firings. */
  lemma DefaultGoalCursor()
    ensures GoalRun(0, |DefaultGoals|, 1) == 2 && GoalRun(0, |DefaultGoals|, 2) == 4
    ensures GoalRun(0, |DefaultGoals|, 3) == 6 && GoalRun(0, |DefaultGoals|, 4) == 8
    ensures GoalRun(0, |DefaultGoals|, 5) == 0
  {
    assert GoalRun(0, 10, 4) == 8;
  }

  // ---------------------------------------------------------------- news ticker

  /** The ticker's content: the news list twice over, so that the loop shows no seam. */
  function NewsBand(news: seq<NewsItem>): (band: seq<NewsItem>)
    ensures |band| == 2 * |news|
    ensures forall i :: 0 <= i < |band| ==> band[i] == news[i % |news|]
  {
    var band := news + news;
    assert forall i :: |news| <= i < |band| ==> i % |news| == i - |news| by {
      forall i | |news| <= i < |band| ensures i % |news| == i - |news| {
        ModUnique(i, |news|, 1, i - |news|);
      }
    }
    assert forall i :: 0 <= i < |news| ==> i % |news| == i by {
      forall i | 0 <= i < |news| ensures i % |news| == i {
        ModUnique(i, |news|, 0, i);
      }
    }
    band
  }

  // ---------------------------------------------------------------- the screen's state

  /**
   * The state the display screen keeps between timer firings. Each method is one firing
   * of one timer and changes only that timer's fields.
   */
  class Screen {
    var current: Option<Period>
    var timeLeft: int
    var mediaIndex: nat
    var isShowingLogo: bool
    var goalIndex: nat

    /** A freshly mounted screen: no period yet, first media item, first goal page. */
    constructor ()
      ensures current == None && timeLeft == 0
      ensures Media() == InitialMedia && goalIndex == 0
    {
      current, timeLeft := None, 0;
      mediaIndex, isShowingLogo := 0, false;
      goalIndex := 0;
    }

    /** The gallery part of the state. */
    function Media(): MediaState
      reads this
    {
      MediaState(mediaIndex, isShowingLogo)
    }

    /** The one-second clock firing: resolve today's schedule at `now` and publish the result. */
    method ClockTick(settings: AppSettings, today: Weekday, now: int)
      modifies this`current, this`timeLeft
      ensures current == Resolve(TodaySchedule(settings, today), now).current
      ensures timeLeft == Resolve(TodaySchedule(settings, today), now).timeLeft
      ensures timeLeft >= 0 && (current.None? ==> timeLeft == 0)
    {
      var info := GetCurrentPeriod(TodaySchedule(settings, today), now);
      current, timeLeft := info.current, info.timeLeft;
    }

    /** `handleMediaCycle`: the gallery timer expired while `media` is the configured list. */
    method HandleMediaCycle(media: seq<MediaItem>)
      modifies this`mediaIndex, this`isShowingLogo
      ensures Media() == NextMediaState(old(Media()), |media|)
    {
      if |media| == 0 {
        return;
      }
      if isShowingLogo {
        mediaIndex := (mediaIndex + 1) % |media|;
        isShowingLogo := false;
      } else {
        isShowingLogo := true;
      }
    }

    /** The goals interval fired while `goals` is the configured list. */
    method GoalsTick(goals: seq<StrategicGoal>)
      modifies this`goalIndex
      ensures goalIndex == NextGoalIndex(old(goalIndex), |goals|)
    {
      if |goals| > 0 {
        goalIndex := (goalIndex + 2) % |goals|;
      }
    }
  }
}
