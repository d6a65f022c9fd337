# Ink Or Die Tattoos page logic — Dafny model

The studio's page script (`main.js`) is mostly DOM wiring. This project models
the parts of it that compute something:

- **The business-hours status engine** (`business_hours.dfy`, module
  `BusinessHours`). A weekly schedule and the current day and time give one of
  four status types (`open`, `closing-soon`, `opening-soon`, `closed`). The
  engine also builds a main message and an optional "next change" line.
  - The shop is open on the half-open interval `[open, close)`.
  - "Soon" means the last hour before closing or before opening.
  - While closed, a bounded seven-day search names the next opening.
  - The schedule is the studio's own table: Monday to Saturday 11AM-8PM, Sunday 1PM-6PM.
- **The back-to-top indicator** (`back_to_top.dfy`, module `BackToTop`). The
  button's class list loses its status classes and gains the new type. The
  tooltip text is chosen by the type.
- **The portfolio filter predicate** (`portfolio.dfy`, module `Portfolio`). An
  item is shown when the filter is `all` or is one of its space-separated
  categories.
- **The gallery caption hash** (`image_captions.dfy`, module `ImageCaptions`).
  A 32-bit wrapping string hash of the file name picks one of eight titles and
  one of eight descriptions.
- `text.dfy` (module `Text`) gives JavaScript's decimal rendering of integers
  and `split`/`join` on one separator. `wrappers.dfy` gives `Option`.

Modelling choices:

- **Time sample.** A sample is a day `0..6` (Sunday first, as `Date.getDay`
  returns it) and a minute of the day `0..1439`. The page compares
  `hours + minutes / 60` against whole-hour bounds. That comparison is exact,
  so `time >= h` is `minute >= h * 60`. `Math.round((close - time) * 60)` is
  `close * 60 - minute`. The model uses these integers instead of
  floating point.
- **Schedule.** The page keeps the schedule in an object keyed by day. The
  model uses a seven-entry sequence of optional `Hours(open, close)`. The
  engine itself puts no condition on the hours. Lemmas that need a well-formed
  day assume `0 <= open < close <= 24` (`ValidHours`).
- **Whole week as input.** `getBusinessStatus` receives today's entry and
  reads the schedule for the next-opening search. `BusinessStatus` takes the
  week and the sample, and looks today's entry up itself, as the caller does.
- **No schedule validation.** The code never rejects a malformed schedule
  (for example `open >= close`). The model does not reject one either: such a
  day is simply never in the open window.
- **One `closed` type.** The code returns type `closed` both for a day
  without hours ("Closed Today", no next-change line) and for closed hours of
  a scheduled day ("Currently Closed" with a next-opening line). The model
  follows the code: four types, told apart by message and next-change line.
  It does not use a separate fifth "closed today" kind.
- **Noon and midnight.** `formatTime(24)` gives `"12PM"`, the same text as
  noon (`FormatTimeMidnightAsNoon`). The studio's schedule never closes at 24.
- **Imperative parts.** The next-opening search (`NextOpenTime`), the hash
  reduce (`FilenameHash`) and the class-list rebuild (`UpdateBackToTopStatus`)
  are methods with loops. Each is proved against a specification function.

## Model

| member | source | states |
|---|---|---|
| `BusinessHours.StudioHoursValid` | main.js:1288-1296 | the studio schedule has hours on every day of the week, each a well-formed `[open, close)` interval |
| `BusinessHours.TypeName` | main.js:1322-1353 | the `type` strings of the four results; each is a single word without spaces (TypeNameIsStatusClass proves they are exactly the four status classes, one per type) |
| `BusinessHours.BusinessStatus` | main.js:1320-1358 | the four-branch classification; its contract states that a next-change line is present exactly when today has hours, and that any type other than `closed` needs hours today and a time no earlier than an hour before opening (and before closing while open); the full branch properties are in ClosedTodayStatus, StatusByLookahead, OpenWindowBoundaries, ClosingSoonWindow, OpeningSoonWindow and NextChangeLine |
| `BusinessHours.ClosedTodayStatus` | main.js:1321-1323 | a day without hours gives type `closed`, message "Closed Today" and no next-change line |
| `BusinessHours.StatusByLookahead` | main.js:1325-1357 | on a well-formed day the four types partition the day by looking one hour ahead: open now and in an hour is `open`; open now but not in an hour is `closing-soon`; closed now but open in an hour is `opening-soon`; otherwise `closed` (each an if-and-only-if) |
| `BusinessHours.OpenWindowBoundaries` | main.js:1329-1330 | at the opening minute the type is `open`, or `closing-soon` when the day is at most one hour long; at the closing minute the type is `closed` (half-open interval) |
| `BusinessHours.ClosingSoonWindow` | main.js:1329-1336 | `closing-soon` holds exactly in the last hour before closing, once open; the message names `close*60 - minute` minutes, always 1 to 60; the next-change line is "Closes at" plus the formatted closing hour |
| `BusinessHours.OpeningSoonWindow` | main.js:1343-1349 | `opening-soon` holds exactly in the hour before opening, outside opening hours; the message names 1 to 60 minutes; the next-change line is "Opens at" plus the formatted opening hour |
| `BusinessHours.NextChangeLine` | main.js:1329-1357 | while open the next-change line is the closing time, and the `open` type's message is "We're Open!"; while closed on a scheduled day it is the next-opening line; before the opening-soon hour that line is today's opening |
| `BusinessHours.WednesdayNoonOpen` | main.js:1338-1342 | Wednesday 12PM on the studio schedule: `open`, "We're Open!", "Closes at 8PM" |
| `BusinessHours.WednesdayEveningClosingSoon` | main.js:1329-1336 | Wednesday 7:30PM on the studio schedule: `closing-soon`, "Closing in 30 minutes", "Closes at 8PM" |
| `BusinessHours.SundayNoonOpeningSoon` | main.js:1343-1349 | Sunday 12:30PM: `opening-soon`, "Opening in 30 minutes", "Opens at 1PM" |
| `BusinessHours.MondayMorningClosed` | main.js:1350-1356 | Monday 9AM: `closed`, "Currently Closed", "Opens today at 11AM" |
| `BusinessHours.SundayEveningClosed` | main.js:1350-1356 | Sunday 7PM: `closed`, "Currently Closed", "Next open: Monday at 11AM" |
| `BusinessHours.ScanFrom` | main.js:1371-1378 | the search finds the first offset in the remaining range whose day has hours; every offset before it has none; no result means no day in the range has hours |
| `BusinessHours.NextOpening` | main.js:1360-1381 | the next-opening line as a function; its contract states the "Opens today" case and that an all-closed week gives "Check back soon"; NextOpeningIsFirst and CheckBackSoonIffNeverOpen carry the rest, and NextOpenTime is the loop proved equal to it |
| `BusinessHours.NextOpenTime` | main.js:1360-1381 | the seven-step loop with early return yields the next-opening line of its specification |
| `BusinessHours.NextOpeningIsFirst` | main.js:1371-1378 | once today's opening has passed, the line names the first day after today (today itself a week later) that has hours |
| `BusinessHours.CheckBackSoonIffNeverOpen` | main.js:1365-1380 | "Check back soon" is returned exactly when no day of the week has hours |
| `BusinessHours.FormatTime` | main.js:1436-1441 | the 12-hour text of a whole hour; its contract states the text ends in "PM" exactly for hours 12 and above; FormatTimeTable, FormatTimeRoundTrip and FormatTimeMidnightAsNoon carry its values |
| `BusinessHours.FormatTimeTable` | main.js:1436-1441 | 0 is "12AM", 11 is "11AM", 12 is "12PM", 20 is "8PM" |
| `BusinessHours.FormatTimeRoundTrip` | main.js:1436-1441 | every hour 0..23 is formatted to a 12-hour text that reads back as that hour |
| `BusinessHours.FormatTimeMidnightAsNoon` | main.js:1437-1439 | a closing hour of 24 is formatted as "12PM", the same text as noon |
| `BusinessHours.DayName` | main.js:1451-1454 | the name of a day index; its contract states every name ends in "day"; DayNameInjective proves the names distinct |
| `BusinessHours.DayNameInjective` | main.js:1451-1454 | the seven day names are pairwise distinct |
| `BackToTop.WithoutStatusClasses` | main.js:1409-1411 | as sets, the kept classes are exactly the old classes that are not status classes; order and repeats are fixed by WithoutStatusClassesAppend and WithoutStatusClassesSingle |
| `BackToTop.WithoutStatusClassesAppend` | main.js:1409-1411 | the filter distributes over concatenation, so it keeps the old order and every repeat |
| `BackToTop.WithoutStatusClassesSingle` | main.js:1409-1411 | one class is kept exactly when it is not a status class |
| `BackToTop.RewriteClassName` | main.js:1409-1412 | the new class attribute: the filtered list plus the type, joined by spaces; its contract states it ends with the type's name; RewriteTokens and ExactlyOneStatusClass carry the rest |
| `BackToTop.TypeNameIsStatusClass` | main.js:1410-1412 | each status type's class name is one of the four status classes, contains no space, and distinct types have distinct names |
| `BackToTop.RewriteTokens` | main.js:1409-1412 | read back as a class list, the new attribute is the old list without status classes, in the old order, followed by the status type |
| `BackToTop.ExactlyOneStatusClass` | main.js:1409-1412 | after the rewrite the class list holds exactly one status class: the last token is the current type and no earlier token is a status class |
| `BackToTop.TooltipText` | main.js:1416-1429 | the tooltip for each type: a coloured circle, a space and the label; TooltipDistinct proves each type has its own text |
| `BackToTop.TooltipDistinct` | main.js:1416-1429 | each status type has its own tooltip text |
| `BackToTop.UpdateBackToTopStatus` | main.js:1403-1434 | with the button present, its class attribute becomes the rewritten list and the tooltip, if present, gets the type's text; without the button nothing changes |
| `Portfolio.ShouldShow` | main.js:346-347 | filter "all" always shows; a filter other than "all" that contains a space never matches a category |
| `Portfolio.ShowIffListedCategory` | main.js:346-347 | for a category attribute written as names joined by spaces, an item is shown exactly when the filter is "all" or one of those names |
| `ImageCaptions.ToInt32` | main.js:265-266 | the 32-bit wrap gives a signed 32-bit integer congruent to its input modulo 2^32 |
| `ImageCaptions.HashStep` | main.js:265-266 | one step of the reduce, `(a << 5) - a + code` then `& a`; its contract states the result is a signed 32-bit integer; HashStepIsTimes31 proves it is the 32-bit wrap of `31 * a + code` |
| `ImageCaptions.HashOf` | main.js:264-267 | the hash is always a signed 32-bit integer |
| `ImageCaptions.FilenameHash` | main.js:264-267 | the character-by-character reduce computes the left fold of the hash step |
| `ImageCaptions.HashStepIsTimes31` | main.js:265-266 | one step `(a << 5) - a + code` then `& a` is the 32-bit wrap of `31 * a + code` |
| `ImageCaptions.HashIsPolynomial` | main.js:264-267 | the hash is the 32-bit wrap of the polynomial string hash with base 31 |
| `ImageCaptions.CaptionIndex` | main.js:269 | `abs(hash) % 8` is an index in `[0, 8)` |
| `ImageCaptions.ImageTitle` | main.js:252-270 | the title is one of the eight titles, chosen by the index of the name's polynomial hash |
| `ImageCaptions.ImageDescription` | main.js:272-290 | the description is one of the eight descriptions, at the same index as the title |
| `Text.NatToString` | main.js:1334 | the decimal text of a number is non-empty, all digits, with no leading zero |
| `Text.NatToStringRoundTrip` | main.js:1334 | reading the decimal text back gives the number |
| `Text.IntToString` | main.js:1438-1439 | the text of an integer starts with '-' exactly when it is negative; the rest is non-empty, all digits, with no leading zero |
| `Text.IntToStringRoundTrip` | main.js:1438-1439 | reading back the sign and the digits gives the integer |
| `Text.Split` | main.js:346 | splitting gives at least one piece and no piece contains the separator |
| `Text.JoinSplit` | main.js:1409-1412 | joining the pieces of a split on the same separator restores the string |
| `Text.SplitJoin` | main.js:1409-1412 | splitting a join of separator-free pieces gives the pieces back |

## Left out

- Reading the clock (`new Date()`, `getDay`, `getHours`, `getMinutes`) and
  `toLocaleTimeString`: I/O and locale. The sample is a parameter.
- The floating-point `hours + minutes / 60` and `Math.round`: replaced by exact
  minutes as described above. The rounding error of the float computation is
  not modelled.
- `updateBusinessStatus`, `updateBannerDisplay` and the `setTimeout` /
  `setInterval` scheduling around them: DOM writes and timers.
- In `filterPortfolioItems`, the per-item style changes, staggered timeouts and
  the read of the `data-category` attribute: DOM and timing. Only the
  visibility predicate is modelled.
- `BackToTop.UpdateBackToTopStatus`: `getElementById` is replaced by the two
  (possibly null) elements as parameters, and they are taken to be distinct
  elements, as two different ids give.
- The image file names are taken as sequences of UTF-16 code units, which
  is what `split('')` and `charCodeAt` see.
- The rest of `main.js`: navigation, floating gallery layout, lightbox,
  modals, sharing, clipboard, form wiring, observers, scroll handling,
  `debounce` and `throttle`. It is DOM, browser APIs and timing.
