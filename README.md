# bud burndown core in Dafny

This project models the two algorithmic parts of bud, a burndown chart for
issue lists:

- **The calendar day** of `lib/day.js`. `Day` is an immutable wrapper of a dayjs
  value. It offers:
  - a one-based month at construction (`fromDayjs`);
  - the comparisons `isBefore`, `isSame`, `isAfter`, `isSameOrBefore` and
    `isSameOrAfter`, installed on the prototype;
  - `clone`, the weekday `day()`, the bounded walks `until` and `untilBack`,
    `"YYYY-MM-DD"` and `"M/D"` formatting, and `fromString`.
- **The burndown aggregation** of `lib/burndown.js`:
  - `Issue` is an open day plus an optional close day.
  - `CountMap` holds per-day `{open, close}` counters and bumps them in place.
  - `Burndown.init` makes one pass over the issues. It fills the map and moves
    the extreme dates `firstDate` and `lastDate`.
  - `Burndown.burndown(startDate, endDate)` walks the days from `startDate` up
    to but not including `endDate`. For each day it pushes the running backlog:
    opens minus closes accumulated since `startDate`.

## Files

- `options.dfy`: `Option`, which models JavaScript `null`.
- `decimal.dfy`: decimal digits, zero padding (dayjs's `padStart`) and reading
  digits back.
- `days.dfy`: the `Day` value (module `Days`).
- `burndown.dfy`: `Issue`, the `CountMap` class, the `Burndown` class and the
  functions that specify them (module `Burndowns`).
- `burndown_facts.dfy`: what `init` and `burndown` promise, stated over the
  issue list alone (module `BurndownFacts`).

## How the model relates to the code

- **The dayjs value.** A dayjs value is modelled as a valid proleptic Gregorian
  triple `(year, month, date)`. The month is zero-based, as dayjs's `month()`
  returns it.
- **Comparisons.** dayjs compares the instants two values stand for. The model
  compares each day's ordinal, its count of days since 0001-01-01. Lemmas show
  that this is exactly the lexicographic order on `(year, month, date)` and
  that `isSame` is equality of dates.
- **Add and subtract.** dayjs's `add(1, 'days')` and `subtract(1, 'days')` are
  the successor and predecessor days. They roll over month and year ends,
  leap years included.
- **Generators.** `until` and `untilBack` are generators. The bounded forms
  become methods with a loop that returns the sequence of days the generator
  would yield.
  - The doc comments at `lib/day.js:52` and `:71` say the same `Day` instance
    is reused.
  - The code instead yields a fresh `Day` from `fromDayjs` for every step, and
    steps only a local value. The model follows the code.
  - `Day` is a value here, so the receiver is never changed.
- **`CountMap` keys.** A JavaScript `Map` is keyed by object identity.
  `CountMap` keys days by calendar value, so two `Day`s naming the same date
  share one bucket. The buckets are a `map<Day, Counts>` field that its
  methods reassign.
  - Ghost fields `openLog` and `closeLog` record every `opened` and `closed`
    call.
  - The invariant `Valid()` says that each bucket counts that day's entries in
    the two logs.

The code is inconsistent in a few places. In each case the model follows
the evident intent:

- `CountMap.get` calls the map object, `this.map(key)` at
  `lib/burndown.js:20`, which JavaScript rejects. It is modelled as a lookup
  that defaults to `{open: 0, close: 0}`.
- `Burndown` calls `after`, `before` and `add` on days (`lib/burndown.js:60-66`
  and `:78`). `Day` has only `isAfter` and `isBefore` and no `add`.
  These are modelled as the strict orders and the successor.
- `date.add(1)` would step the caller's own `startDate` object. The loop is
  modelled on a local day.
- `Issue.closed` is the class itself, so it is called without `new`. It is
  modelled as the two-argument constructor.

The fixtures in `test/burndown.test.js` disagree with the code in some places.
They expect an options argument, velocity results, carry-over of issues opened
before the window, and skipped days. The model follows `lib/burndown.js`.
`BurndownFacts.FixtureSeriesStart` computes the first entries for the fixture's
issues under the code as written. They are 2, 1, 2, where the fixture expects
3, 2, 3.

## Model

| member | source | states |
|---|---|---|
| Burndowns.Opened | lib/burndown.js:7-9 | an opened issue has the given open day and no close day |
| Burndowns.Closed | lib/burndown.js:11 | the plain constructor: an issue keeps both its open day and its close day |
| Burndowns.InitVal | lib/burndown.js:40-42 | a fresh bucket `{open: 0, close: 0}`; bumping it once counts exactly that one event |
| Burndowns.Bump | lib/burndown.js:36 | `oc[type]++` raises the named counter by exactly one and leaves the other alone |
| Burndowns.CountMap.constructor | lib/burndown.js:15-17 | a new count map has no buckets and has recorded nothing |
| Burndowns.CountMap.Get | lib/burndown.js:19-21 | a lookup gives the number of opens and closes recorded on that day; it gives `{0, 0}` exactly when the day has no bucket; the map is not changed |
| Burndowns.CountMap.Incr | lib/burndown.js:31-38 | the day's counter of that kind goes up by one, the bucket is created as `{0, 0}` first when absent, every other bucket is unchanged, and the map keeps counting the recorded events |
| Burndowns.TallyMapRecord | lib/burndown.js:31-38 | bumping one bucket of the map of counts gives the counts of the logs extended by that one event |
| Burndowns.CountMap.Opened | lib/burndown.js:23-25 | records one open on the day: its open counter goes up by one, nothing else changes |
| Burndowns.CountMap.Closed | lib/burndown.js:27-29 | records one close on the day: its close counter goes up by one, nothing else changes |
| Burndowns.Burndown.constructor | lib/burndown.js:46-51 | both dates start null, then `init` runs: `firstDate` and `lastDate` are the scans from null, and the count map records exactly the issues' open and close days |
| Burndowns.Burndown.Init | lib/burndown.js:53-71 | one pass over the issues: the new count map records every open day and every close day in list order, `firstDate` is the earliest-open scan and `lastDate` the latest-event scan, and the issue list is unchanged |
| Burndowns.FirstStep | lib/burndown.js:60-62 | one step of the earliest-date scan: the result is on or before the issue's open day and the held day, and is one of the two |
| Burndowns.LastStep | lib/burndown.js:63-68 | one step of the latest-date scan: the result is on or after the issue's open day, its close day if any, and the held day, and is one of them |
| Burndowns.PrefixStep | lib/burndown.js:55-68 | one more issue appends its open day, and its close day if any, and takes one step of each extreme-date scan |
| Burndowns.Span | lib/burndown.js:78 | the number of days from `startDate` before `endDate`; zero exactly when `startDate` is not before `endDate` |
| Burndowns.Burndown.Burndown | lib/burndown.js:73-85 | one entry per day from `startDate` up to but not including `endDate`; entry `i` is the opens minus the closes of issues on days `startDate .. startDate+i`; nothing is carried over and the map is only read |
| Burndowns.EmptyWindow | lib/burndown.js:74-76 | both totals start at zero: an empty window holds no opens and no closes |
| Burndowns.WithinStep | lib/burndown.js:79-81 | adding a day to the window adds the issues opened and closed on that day, which are that day's counters |
| BurndownFacts.EarliestOpenBounds | lib/burndown.js:60-62 | the earliest-date scan is on or before every open day and its starting day, and equals one of them; it is null only when it started null over no issues |
| BurndownFacts.LatestEventBounds | lib/burndown.js:63-68 | the latest-date scan is on or after every open day, every close day and its starting day, and equals one of them; it is null only when it started null over no issues |
| BurndownFacts.InitExtremes | lib/burndown.js:48-68 | after construction: both dates are null exactly for an empty list; otherwise `firstDate` is the earliest open day, `lastDate` the latest open or close day, each is one of the issues' days, and `firstDate` is on or before `lastDate` |
| BurndownFacts.CountsMatchIssues | lib/burndown.js:55-59 | a day's open counter is the number of issues opened that day, and its close counter the number closed that day |
| BurndownFacts.SumOverRun | lib/burndown.js:55-59 | over a run of consecutive days the counters add up to the issues opened and closed in that window |
| BurndownFacts.OpensAllWithin | lib/burndown.js:55-56 | a window holding every open day counts every issue as opened |
| BurndownFacts.ClosesAllWithin | lib/burndown.js:57-59 | a window holding every close day counts every closed issue |
| BurndownFacts.CountsSumToIssues | lib/burndown.js:53-68 | over the days from `firstDate` through `lastDate`, the open counters sum to the number of issues for every non-empty list; for issues that close on or after opening, the close counters sum to the number of closed issues |
| BurndownFacts.BacklogStart | lib/burndown.js:74-76 | the backlog before the first day of the window is zero |
| BurndownFacts.BacklogStep | lib/burndown.js:79-82 | consecutive entries differ by that day's open counter minus its close counter |
| BurndownFacts.FinalBacklog | lib/burndown.js:73-85 | for a non-empty list of issues that close on or after opening, the backlog over the whole range from `firstDate` through `lastDate` is the number of issues still open |
| BurndownFacts.FixtureSeriesStart | lib/burndown.js:74-82 | for the fixture's issues, the series from 2017-10-30 starts 2, 1, 2, because nothing before `startDate` is carried over |
| Days.New | lib/day.js:35-37 | the constructor takes a one-based month and keeps year, month and date |
| Days.FromDayjs | lib/day.js:113-115 | adding one back to dayjs's zero-based month gives a day wrapping that same dayjs value |
| Days.NewRoundTrip | lib/day.js:113-115 | building a day and going through `fromDayjs` gives the same day back |
| Days.Add1 | lib/day.js:59 | `add(1, 'days')` moves exactly one day forward, across month and year ends |
| Days.Subtract1 | lib/day.js:78 | `subtract(1, 'days')` moves exactly one day back, across month and year ends |
| Days.BeforeIsLexicographic | lib/day.js:125-129 | `isBefore` holds exactly when `(year, month, date)` is lexicographically smaller |
| Days.SameIsEqual | lib/day.js:125-129 | `isSame` holds exactly of the same calendar date |
| Days.IsBefore | lib/day.js:125-129 | `isBefore`: the first day's ordinal is smaller; `BeforeIsLexicographic` shows this is the lexicographic order on dates |
| Days.IsSame | lib/day.js:125-129 | `isSame`: the two ordinals are equal; `SameIsEqual` shows this is equality of dates |
| Days.IsAfter | lib/day.js:125-129 | `isAfter`: the first day's ordinal is larger; `OrderIsTotal` shows it is `isBefore` with the arguments swapped |
| Days.IsSameOrBefore | lib/day.js:125-129 | the dayjs plugin's `isSame || isBefore`; `OrderIsTotal` shows it is the negation of `isAfter` |
| Days.IsSameOrAfter | lib/day.js:125-129 | the dayjs plugin's `isSame || isAfter`; `OrderIsTotal` shows it is the negation of `isBefore` |
| Days.OrderIsTotal | lib/day.js:125-129 | exactly one of before, same and after holds; `isSameOrBefore` is the negation of `isAfter`, and `isSameOrAfter` of `isBefore`; after is before reversed; before is transitive |
| Days.Clone | lib/day.js:42-44 | the clone is the same date as the original |
| Days.DayOfWeek | lib/day.js:83-85 | the weekday lies in 0..6 |
| Days.DayOfWeekNext | lib/day.js:83-85 | the weekday advances by one, modulo 7, from each day to the next |
| Days.SundayOctober29th2017 | test/burndown.test.js:10-17 | 2017-10-29 is a Sunday (weekday 0), as the fixture calendar shows |
| Days.Next | lib/day.js:59 | the successor day has the next ordinal |
| Days.Prev | lib/day.js:78 | the predecessor day has the previous ordinal |
| Days.NextPrevInverse | lib/day.js:57-60 | successor and predecessor undo each other, and no day lies strictly between a day and its successor |
| Days.InclusiveSpan | lib/day.js:58 | the number of days from the first day through the last; zero exactly when the first is after the last |
| Days.RunCovers | lib/day.js:56-63 | a run of consecutive days from the first day through the last holds exactly the days between them |
| Days.RunCoversBack | lib/day.js:75-81 | a run of consecutive days back from the last day to the first holds exactly the days between them |
| Days.Until | lib/day.js:56-63 | yields the receiver and then each next day, through `endDay`; nothing when the receiver is after `endDay`; the yielded days are exactly those between the two |
| Days.UntilBack | lib/day.js:75-81 | yields the receiver and then each previous day, down to `endDay`; nothing when the receiver is before `endDay`; the yielded days are exactly those between the two |
| Days.ToString | lib/day.js:98-100 | "YYYY-MM-DD": at least ten characters with dashes third and sixth from the end, exactly ten for years 0..9999 |
| Days.ToShortString | lib/day.js:105-107 | "M/D": three to five characters holding a slash |
| Days.FromString | lib/day.js:120-122 | a string that gives a day has the "YYYY-MM-DD" shape: ten characters with dashes at positions 4 and 7 |
| Days.StringRoundTrip | lib/day.js:98-100 | for years 0..9999, `toString` gives ten characters and `fromString` reads back the same day |
| Days.ShortStringReadsBack | lib/day.js:105-107 | "M/D" is the month's digits, a slash and the date's digits, each reading back to the month and the date |

## Left out

- The unbounded form of `until()` and `untilBack()` with no `endDay` (`lib/day.js:58`, `:77`). It is an infinite generator. Only the bounded form is modelled, as a method that returns the finite sequence.
- `Day` values that overflow, such as month 13 or day 32. dayjs normalises these. The model requires a real calendar date.
- Days.New: does not model the JavaScript `Date` rule that maps years 0..99 to 1900..1999. Years are kept as given.
- Days.FromString: does not model dayjs's own parsing. Without its custom-format plugin dayjs ignores the format string at `lib/day.js:121` and reads the string with its built-in date pattern and the JavaScript `Date` rules. So strings such as "2017/10/30", "20171030" and "2017-1-5" give valid days, and "2017-02-30" gives the normalised day 2017-03-02. The model gives `None` for all of these. Only four, two and two digits separated by dashes and naming a real date give a day in the model. Strings dayjs cannot read at all give an invalid date in the source and `None` in the model.
- Days.StringRoundTrip: negative years are not covered. `padStart` pads the whole signed string, so years -1..-99 print as "00-5" and the like, with the zeros before the minus.
- Days.StringRoundTrip: years above 9999 are not covered. `toString` then gives more than ten characters, which the "YYYY-MM-DD" reading does not accept.
- `Day.toDate`: it returns a JavaScript `Date` object and holds no logic to model.
- Time zones and daylight-saving shifts. Every day is taken to start at local midnight, so comparing instants is comparing dates.
- The aliasing of bucket objects. `get` hands out the stored `{open, close}` object, so a caller could change it. The model returns a copy, since `Counts` is a value.
- Burndowns.Burndown.Burndown: the step `date.add(1)` on the caller's `startDate` is modelled on a local day. The caller's object is left unchanged.
- lib/daychart.js is not part of this model. It covers chart rendering, colours, tooltips, and floating-point velocity estimates over an API that `lib/burndown.js` lacks.
- index.js, taskfile.js and rollup-config.js are not part of this model. They are DOM wiring and build configuration.
- Behaviour expected only by the tests is not modelled: an options argument, skipped weekends and holidays, velocities, inclusive end, and pre-window carry-over. `lib/burndown.js` has none of these.
