# School signage board: schedule and rotation engine in Dafny

A digital signage screen for a school shows four things that change over time:
- The lesson that is running now, with a countdown of the time it has left.
- A gallery that alternates between media items and the school logo.
- The school's strategic goals, two at a time.
- A scrolling news ticker.

This project models the logic behind those panels and proves properties of it.

The modules are:

- `Types` (types.ts): the configuration records.
  - The records are `Period`, `ScheduleDay`, `NewsItem`, `MediaItem`, `StrategicGoal` and `AppSettings`.
  - `DefaultSettings` is the shipped configuration, including its two ten-period day plans (the normal day and the activity day).
- `Utils` (utils.ts): the time helpers.
  - `IsActivityDay` is the day-type test.
  - `ParseTime` turns an `"HH:mm"` string into milliseconds since midnight. A malformed string gives `None`, and the resolver then treats every comparison as false, just as the code's NaN dates behave.
  - The period resolver: `GetCurrentPeriod` is a loop with an early exit, proved equal to the recursive specification `Resolve`.
  - `FormatTime` renders the countdown.
  - The wall clock is not read. Callers pass the weekday (0 = Sunday .. 6 = Saturday) and the milliseconds since local midnight.
- `Display` (components/DisplayScreen.tsx): the screen.
  - Schedule selection: `TodaySchedule`.
  - The media/logo alternator (`NextMediaState`) and how long each state is held (`MediaDwell`).
  - The goals cursor (`NextGoalIndex`) and the derived views (`CurrentGoals`, `ActiveMedia`, `NewsBand`).
  - The class `Screen` holds the state the timers overwrite. Each timer callback is a method that changes only its own fields and is specified by the step function above.
- `Arith`: two facts about Euclidean remainders that the cursor arithmetic uses.
- `Text`: the JavaScript string operations the helpers use, on ASCII digits.
  - `split` on one character, with `Join` as its inverse.
  - `toString` on integers.
  - `padStart(2, '0')`.
- `DefaultFacts`: facts about the shipped configuration.
  - Both day plans are well-formed, ascending and non-overlapping.
  - Period ids are 1..10.
  - Worked examples: at 07:40 on a normal day the first lesson runs with "25:00" left; on an activity day the morning assembly runs instead.

## Model

| member | source | states |
|---|---|---|
| Utils.IsActivityDay | utils.ts:4-8 | true exactly when some entry of `activityDays` equals today's weekday index |
| Utils.NoActivityDays | utils.ts:4-8 | an empty list of activity days never makes a day an activity day |
| Utils.ParseTime | utils.ts:10-15 | a valid time is a non-negative whole number of minutes in milliseconds; a string without ':' is invalid |
| Utils.ParseTimeShape | utils.ts:10-15 | a valid result comes only from a string that is digits ':' digits, then nothing or a further ':'; its value is hours * 3600000 + minutes * 60000 read from those two digit runs |
| Utils.ParseTimePrefix | utils.ts:10-15 | every string of that shape parses to that value, whatever follows the second ':' |
| Utils.NonDigitMinutes | utils.ts:10-15 | "07:3x" gives an invalid time, as the code's NaN minutes do |
| Utils.NonDigitHours | utils.ts:10-15 | "7a:00" gives an invalid time |
| Utils.ParseGlued | utils.ts:10-15 | digits ':' digits parses to (hours * 3600000 + minutes * 60000) ms |
| Utils.ParseHHmm | utils.ts:10-15 | every well-formed "HH:mm" string parses to the moment it names, `HHmmValue` (HH hours plus mm minutes) |
| Utils.ParseClockString | utils.ts:10-15 | rendering hour h and minute m as zero-padded "HH:mm" and parsing it back gives h * 3600000 + m * 60000 |
| Utils.ClockStringIsHHmm | types.ts:4-5 | a time within the 24-hour clock renders as a well-formed "HH:mm" string |
| Utils.Following | utils.ts:31 | `periods[i + 1] \|\| null`: present exactly when i is not the last index, and then the next period |
| Utils.SecondsLeft | utils.ts:30 | whole seconds left, rounded down: s * 1000 <= end - now < (s + 1) * 1000 |
| Utils.ResolveFrom | utils.ts:23-41 | the scan's answer: timeLeft >= 0; a current period contains now; no current period means timeLeft 0 and any next period starts after now |
| Utils.GetCurrentPeriod | utils.ts:17-44 | the loop with its early exits returns exactly `Resolve(periods, now)` |
| Utils.ResolveSkips | utils.ts:23-41 | periods the scan moves past (neither running nor still to start) do not change the answer |
| Utils.FirstContainingIsCurrent | utils.ts:23-33 | the first period containing now, reached before any stop, is current; next is the following period; timeLeft counts down to its end |
| Utils.FirstUpcomingIsNext | utils.ts:35-40 | the first period still to start, reached before any stop, is next, with no current period and timeLeft 0 |
| Utils.AllPassedIsIdle | utils.ts:19-43 | a scan that never stops reports no current, no next and timeLeft 0 |
| Utils.FirstStop | utils.ts:23-40 | the index where the scan stops: every earlier period is passed over and the one there is not |
| Utils.CurrentIsFirstContaining | utils.ts:23-33 | any current period is the first stop of the scan, it contains now, and next and timeLeft are those of that index |
| Utils.NoneContaining | utils.ts:35-43 | with no period containing now: nothing is current, timeLeft is 0, next is the first period still to start, and none exactly when every period has started |
| Utils.MalformedNeverCurrent | utils.ts:25-28 | a period with a malformed start or end is never current |
| Utils.MalformedStartNeverUpcoming | utils.ts:36-39 | a period with a malformed start is never chosen as next when nothing is current |
| Utils.MalformedEndCanBeNext | utils.ts:36-39 | a period whose valid start is still ahead is next even if its end is malformed |
| Utils.OrderedPairwise | utils.ts:23-33 | in an ascending, non-overlapping list every earlier period ends before any later one starts |
| Utils.AtMostOneActive | utils.ts:23-33 | in such a list at most one period contains any instant |
| Utils.OrderedResolve | utils.ts:23-33 | in such a list period k contains now if and only if the resolver reports it as current |
| Utils.JsRem60 | utils.ts:48 | `s % 60` with the sign of the dividend, as JavaScript computes it |
| Utils.FormatTime | utils.ts:46-50 | the text has at least five characters; for a non-negative count it ends in ':' and two digits, and the digits before the colon and after it are minutes and seconds with minutes * 60 + seconds == count and seconds < 60; the minutes are two digits, or more without a leading zero |
| Utils.PaddedCount | utils.ts:47-49 | a count rendered and padded is a digit string of at least two digits with that value, exactly two below 100, with no leading zero when longer |
| Utils.FormatFields | utils.ts:47-49 | the padded minutes and seconds glued with ':' spell out the count |
| Utils.FormatTimeRoundTrip | utils.ts:46-50 | for s >= 0 the text splits at one ':' into minutes (two digits, or more without a leading zero) and seconds (exactly two), with minutes * 60 + seconds == s and seconds < 60 |
| Utils.FormatTimeExample | utils.ts:46-50 | 1500 seconds read "25:00" |
| Text.NatToString | utils.ts:49 | decimal digits whose value is n, one digit below 10 and no leading zero otherwise |
| Text.IntToString | utils.ts:49 | the decimal text of n, with a '-' prefix exactly for negative n |
| Text.PadStart2 | utils.ts:49 | zeros on the left up to length two; the original text is the suffix |
| Text.PadStart2Digits | utils.ts:49 | padding a digit string keeps it a digit string with the same value |
| Text.LeadingZero | utils.ts:49 | a leading zero does not change the value of a digit string |
| Text.Split | utils.ts:11 | `split` always yields at least one piece |
| Text.SplitPieces | utils.ts:11 | no piece holds the separator, joining the pieces gives the input back, and there is one piece exactly when the separator is absent |
| Text.SplitJoin | utils.ts:11 | splitting the joined pieces gives the pieces back when none holds the separator |
| Text.JoinFirstTwo | utils.ts:11 | a joined list of at least two pieces is the first piece, the separator, the second piece, then nothing or the separator and the rest joined |
| Text.SplitTwoMore | utils.ts:11 | two separator-free pieces, each followed by the separator, split off ahead of the pieces of whatever follows |
| Text.SplitTwo | utils.ts:11 | a string with one separator splits into the text before it and the text after it |
| Display.TodaySchedule | components/DisplayScreen.tsx:38-40 | the activity list exactly when today is listed as an activity day, the normal list otherwise |
| Display.NextMediaState | components/DisplayScreen.tsx:51-63 | empty list: unchanged; otherwise the logo flag flips, the index changes only when leaving the logo, and leaving the logo it becomes (index + 1) mod length, in range even if it was out of range before |
| Display.EmptyMediaFrozen | components/DisplayScreen.tsx:52 | with an empty media list any number of expiries leaves the gallery state unchanged |
| Display.MediaAlternates | components/DisplayScreen.tsx:54-62 | with a non-empty list the logo flag flips on every expiry |
| Display.MediaCycles | components/DisplayScreen.tsx:54-62 | from media item i, 2c expiries reach item (i + c) mod n without the logo and 2c + 1 expiries the same item under the logo |
| Display.MediaIndexStaysInRange | components/DisplayScreen.tsx:54-58 | from the initial state the selected index always names an item of a non-empty list |
| Display.MediaDwell | components/DisplayScreen.tsx:65-69 | logo shown: logoDuration * 1000; item shown and present: its duration * 1000; item missing (empty list or index out of range): 5000 |
| Display.ActiveMedia | components/DisplayScreen.tsx:94 | present exactly when the index is in range, and then the item at the index |
| Display.DwellPositive | components/DisplayScreen.tsx:65-69 | with positive configured durations every state is held for at least one second |
| Display.DwellUnclamped | components/DisplayScreen.tsx:67-71 | a zero duration yields a zero delay, because nothing clamps it |
| Display.DefaultMediaTrace | components/DisplayScreen.tsx:54-69 | the default gallery runs media 0 (10 s), logo (5 s), media 1 (15 s), logo (5 s), then media 0 |
| Display.NextGoalIndex | components/DisplayScreen.tsx:80-82 | with an empty list the cursor stays; otherwise it lands in range, two places on modulo the length |
| Display.GoalRunFromZero | components/DisplayScreen.tsx:80-82 | from 0 the cursor after k firings is 2k modulo the length |
| Display.GoalPeriod | components/DisplayScreen.tsx:80-82 | half the length for even lengths, the length for odd ones; after that many firings 2k is a multiple of the length |
| Display.GoalCycle | components/DisplayScreen.tsx:80-82 | the cursor is back at 0 exactly after a whole number of periods |
| Display.DefaultGoalCursor | components/DisplayScreen.tsx:80-82 | with the ten default goals the cursor runs 0, 2, 4, 6, 8, 0 |
| Display.CurrentGoals | components/DisplayScreen.tsx:89-92 | at most two goals, none for an empty list, the goal at the cursor and the one after it (wrapping) when the cursor is in range, only the goal at (cursor + 1) mod length when the cursor is past the end, all taken from the list |
| Display.OnPage | components/DisplayScreen.tsx:89-92 | the goal at the cursor and the one after it are on the page |
| Display.EveryGoalShown | components/DisplayScreen.tsx:89-92 | from cursor 0, goal j is on screen after at most j / 2 firings |
| Display.NewsBand | components/DisplayScreen.tsx:239 | length twice the news list, entry i being news item i mod n |
| Display.Screen.constructor | components/DisplayScreen.tsx:18-25 | no period, timeLeft 0, first media item without the logo, goal cursor 0 |
| Display.Screen.ClockTick | components/DisplayScreen.tsx:37-42 | the published period and countdown are the resolver's answer for today's list; timeLeft >= 0 and 0 with no period |
| Display.Screen.HandleMediaCycle | components/DisplayScreen.tsx:51-63 | the gallery state becomes `NextMediaState` of the old one, and nothing else changes |
| Display.Screen.GoalsTick | components/DisplayScreen.tsx:80-82 | the cursor becomes `NextGoalIndex` of the old one, and nothing else changes |
| DefaultFacts.OrderedFromText | types.ts:4-5 | periods written as well-formed, ascending "HH:mm" strings all parse and are ordered for the resolver |
| DefaultFacts.NormalTextWellFormedEarly | types.ts:86-90 | the first five normal periods are well-formed "HH:mm" with start before end |
| DefaultFacts.NormalTextWellFormedLate | types.ts:91-95 | the last five normal periods are well-formed "HH:mm" with start before end |
| DefaultFacts.NormalTextAscendingEarly | types.ts:86-91 | each of the first five normal periods ends no later than the next one starts |
| DefaultFacts.NormalTextAscendingLate | types.ts:91-95 | each of the sixth to ninth normal periods ends no later than the next one starts |
| DefaultFacts.ActivityTextWellFormedEarly | types.ts:98-102 | the first five activity periods are well-formed "HH:mm" with start before end |
| DefaultFacts.ActivityTextWellFormedLate | types.ts:103-107 | the last five activity periods are well-formed "HH:mm" with start before end |
| DefaultFacts.ActivityTextAscendingEarly | types.ts:98-103 | each of the first five activity periods ends no later than the next one starts |
| DefaultFacts.ActivityTextAscendingLate | types.ts:103-107 | each of the sixth to ninth activity periods ends no later than the next one starts |
| DefaultFacts.DefaultNormalOrdered | types.ts:85-96 | every default normal start and end parses, and the list is ascending and non-overlapping |
| DefaultFacts.DefaultActivityOrdered | types.ts:97-108 | every default activity start and end parses, and the list is ascending and non-overlapping |
| DefaultFacts.DefaultIds | types.ts:86-107 | both lists have ten periods with ids 1..10 in list order, unique within the list |
| Types.DefaultSettings | types.ts:54-110 | the shipped configuration; its parts are stated by `DefaultFacts.DefaultSettingsParts` |
| DefaultFacts.DefaultSettingsParts | types.ts:54-110 | activity days [2], the two default lists, the default news, media and goals, news speed 25 s, logo 5 s, goals 10 s |
| DefaultFacts.DefaultActivityDays | types.ts:60 | every default activity day is a weekday index, and only Tuesday (2) is an activity day |
| DefaultFacts.DefaultDurations | types.ts:68-71 | media durations 10 and 15; every default gallery state is held at least one second |
| DefaultFacts.DefaultMediaAlwaysActive | components/DisplayScreen.tsx:65-69 | with the default gallery the selected item always exists, so the 5000 ms fallback is never used |
| DefaultFacts.FirstLessonRuns | types.ts:86-87 | at 07:40 the 07:10-07:25 assembly is over, and the first lesson runs with 1500 s left |
| DefaultFacts.SecondRuns | utils.ts:28-33 | a list whose first period is over and whose second one runs resolves to the second, with the third as next |
| DefaultFacts.FirstLessonExample | types.ts:87 | at 07:40 on a normal day the first lesson (id 2) is current, the second lesson is next, and 1500 s are left |
| DefaultFacts.ActivityDayExample | components/DisplayScreen.tsx:38-40 | with the default lists and Tuesday as the activity day, 07:40 on Tuesday is in the assembly with 300 s left; on any other day it is in the first lesson |

## Left out

- `getOmanTime` and `getOmanDate` (utils.ts:52-69) are locale and time-zone formatting. They are not part of this model.
- The clock is not read. The weekday and the milliseconds since local midnight are parameters. Daylight-saving changes and the gap between host-local time and the display's time zone are not modelled.
- Timer scheduling is not modelled. The model does not cover `setInterval`, `setTimeout`, effect cleanup or cancellation when settings change. Each timer expiry is an explicit method call.
- `MediaDwell` gives the delay each state is held, but the model does not say when the timer fires.
- The screen's state is not reset when the configured lists change. This matches the code, which also does not reset it. The model's step functions take the list length at the moment of each firing.
- Rendering is left out. This covers the JSX, the CSS ticker animation, video playback and `newsSpeed`, which only sets the animation's length.
- The admin panel (components/AdminPanel.tsx) and the persistence layer (App.tsx) are not part of this model.
- Utils.ParseTime accepts only pieces made of ASCII digits. JavaScript `Number()` also turns an empty piece into 0 and accepts whitespace, signs, decimals, exponents and hexadecimal. Those inputs parse to a valid time in the code but to `None` here.
- Utils.ParseTime does not model `setHours` on hours of 24 or more or minutes of 60 or more as a rollover into a later day. They are added as plain milliseconds, which gives the same offset from today's midnight.
- Periods, durations and indices are integers. Fractional numbers and double precision are not modelled.
- Neither the code nor this model clamps durations. A zero or negative duration goes straight into the timer, as `Display.DwellUnclamped` shows.
- A period whose end is malformed but whose start is valid and still ahead is reported as next (`Utils.MalformedEndCanBeNext`). Only a malformed start keeps a period from being next. The model follows the code here.
- With a single goal, `Display.CurrentGoals` shows it twice. The code does this as well.
