# Shooting-practice backend: improvement statistics and auth, in Dafny

This project models the two route modules of a small Express/Prisma backend
for a basketball shooting-practice tracker:

- **routes/performance.js**: adding a shooting session, listing a user's
  sessions newest first, and the daily, weekly and monthly accuracy
  improvements. The improvement route builds three pairs of period windows
  from `now` with JavaScript `Date` calls, sums made and attempted shots per
  window, gates each pair on both periods having attempts, and reduces the
  two accuracies to a signed percentage with `calculateImprovement`.
- **routes/auth.js**: register, login, and the two profile routes
  (`GET`/`PUT /users/:id`) over the user table, with Bearer-header parsing
  and the order of the status-code checks.

Layout (one module per file):

| file | module | models |
|---|---|---|
| common.dfy | `Wrappers`, `Api` | `Option`; user ids, status codes, the `Reply` of a handler |
| civil_time.dfy | `CivilTime` | proleptic Gregorian calendar: day number to date and back, proved inverse |
| js_date.dfy | `JsDate` | `Date` getters and setters (`getDay`, `setHours`, `setDate`, `setMilliseconds`, `new Date(y, m, 1)`) after sections 21.4.1 and 21.4.2.1 of ECMA-262 |
| windows.dfy | `Windows` | the day, week and month window pairs and their boundary facts |
| aggregate.dfy | `Aggregate` | session records, the per-window `_sum` aggregates with their null-to-0 coalescing |
| improvement.dfy | `Improvement` | `calculateImprovement` and the per-pair null gating |
| performance_routes.dfy | `PerformanceRoutes` | the improvement handler; the record store behind `POST /add` and `GET /user/:userId` |
| bearer.dfy | `Bearer` | `split(" ")`, and the token of an `Authorization` header |
| auth.dfy | `Auth` | the user table class with one method per route |

Modelling choices:

- Time values are milliseconds of local time in one fixed-offset zone. Day 0
  (1970-01-01) is a Thursday. The `Date` operations are written as
  ECMA-262's `MakeDay`, `MakeDate` and `MakeTime`, so `setDate` and
  `new Date(y, m - 1, 1)` roll over month and year ends as JavaScript does.
  The `Date` constructor's own rule that a year from 0 to 99 means 1900 to
  1999 is kept (`JsDate.ConstructorYear`).
- Accuracies are exact `real`s.
- The datastore is in memory. Records are a `seq`, users a `map` from id to
  row. User ids are naturals issued by a counter; the datastore's ids are
  opaque strings.
- bcrypt and jsonwebtoken are the four functions of a `Crypto` value:
  `hash`, `verifyPassword`, `sign`, and `verify`, which gives `None` for a
  bad or expired token. The user table is built with one.
- A request-body field is an `Option<string>`; `Present` is JavaScript
  truthiness for strings (present and non-empty). The optional `date` of
  `POST /add` is `None` when it is absent or falsy.
- The improvement route takes `now` and the user table's ids as parameters.
- Two behaviours of the code that the model keeps:
  - A previous accuracy of exactly 0 makes `calculateImprovement` return 0
    (routes/performance.js:9).
  - The week is the local week that starts on Monday at midnight
    (routes/performance.js:84-88).

## Model

| member | source | states |
|---|---|---|
| `Improvement.CalculateImprovement` | routes/performance.js:8-11 | 0 when the previous accuracy is 0; otherwise the result times the previous accuracy is 100 times the change |
| `Improvement.ImprovementInverse` | routes/performance.js:10 | the percentage can be undone: current = previous * (1 + r / 100) |
| `Improvement.EqualAccuracyNoImprovement` | routes/performance.js:8-11 | equal accuracies give 0 |
| `Improvement.ImprovementSign` | routes/performance.js:10 | with a positive previous accuracy, the result is positive exactly when accuracy rose and negative exactly when it fell |
| `Improvement.Accuracy` | routes/performance.js:78-79 | times the attempted count it gives the made count; between 0 and 1 when 0 <= made <= attempted |
| `Improvement.PeriodImprovement` | routes/performance.js:76-81 | the figure is null exactly when either period's attempted sum is not positive |
| `Improvement.NoPreviousMakesGivesZero` | routes/performance.js:9 | a previous period with attempts but no makes gives 0, not infinity |
| `Improvement.PeriodImprovementValue` | routes/performance.js:77-80 | with attempts on both sides, the figure is the relative change of accuracy in percent |
| `Improvement.Examples` | routes/performance.js:76-81 | 50% to 50% gives 0, 50% to 100% gives +100, 50% to 10% gives -80 |
| `Aggregate.OfUser` | routes/performance.js:31-32 | keeps exactly the records of that user |
| `Aggregate.Select` | routes/performance.js:61-68 | keeps exactly that user's records dated inside the window |
| `Aggregate.PeriodTotals` | routes/performance.js:61-74 | the two coalesced sums of one window; its contract is `Aggregate.PeriodTotalsAreSums` and `Aggregate.PeriodTotalsAppend` |
| `Aggregate.PeriodTotalsAreSums` | routes/performance.js:61-74 | a period's totals are the made and attempted sums over exactly the matching records; no match gives (0, 0) |
| `Aggregate.PeriodTotalsAppend` | routes/performance.js:61-74 | one more stored record adds its counts to a window's totals if it matches, and changes nothing otherwise |
| `Aggregate.PeriodTotalsSplit` | routes/performance.js:59-74 | totals over two disjoint windows that cover a third add up to that window's totals |
| `CivilTime.CivilFromDays` | routes/performance.js:116 | the date of a day number is a valid calendar date whose day number is that number |
| `CivilTime.DaysFromCivilInjective` | routes/performance.js:116-117 | distinct valid dates have distinct day numbers |
| `CivilTime.CivilRoundTrip` | routes/performance.js:116-117 | date to day number to date gives the date back |
| `CivilTime.PreviousMonth` | routes/performance.js:117 | the month before (January goes to December of the year before) ends the day before the given month starts |
| `JsDate.WeekDay` | routes/performance.js:84 | `getDay()`; its contract is `JsDate.BackToMonday` |
| `JsDate.SetHours` | routes/performance.js:53 | `setHours(h, m, s, ms)`; its contract is `JsDate.MidnightOf` |
| `JsDate.SetDate` | routes/performance.js:55-57 | `setDate(d)`; its contract is `JsDate.SetDateShifts` |
| `JsDate.SetMilliseconds` | routes/performance.js:119 | `setMilliseconds(ms)`; its contract is `JsDate.SetMillisecondsShifts` |
| `JsDate.NewLocalDate` | routes/performance.js:116-117 | `new Date(y, m, d)`, years 0 to 99 read as 1900 to 1999; its contract is `JsDate.NewLocalDateIsFirstOfMonth` |
| `JsDate.TimeDecomposition` | routes/performance.js:119 | the getters split a time value into day, hours, minutes, seconds and ms without loss |
| `JsDate.SetDateShifts` | routes/performance.js:55-57 | `setDate(getDate() + k)` moves a time by exactly k days, across month and year ends |
| `JsDate.MidnightOf` | routes/performance.js:53 | `setHours(0, 0, 0, 0)` gives the midnight starting the same day |
| `JsDate.SetMillisecondsShifts` | routes/performance.js:119 | `setMilliseconds(getMilliseconds() + k)` moves a time by k ms |
| `JsDate.NewLocalDateIsFirstOfMonth` | routes/performance.js:116 | `new Date(y, m, 1)` is midnight of the 1st of that month, of year 1900 + y when y is from 0 to 99 |
| `JsDate.BackToMonday` | routes/performance.js:84-85 | going back `(getDay() + 6) % 7` days lands on a Monday: none on a Monday, six on a Sunday |
| `Windows.DailyPair` | routes/performance.js:52-57 | today's and yesterday's windows; its contract is `Windows.DailyWindows` |
| `Windows.StartOfWeek` | routes/performance.js:84-88 | the Monday midnight of now's week; its contract is `Windows.WeekStart` and `Windows.WeekStartUnique` |
| `Windows.WeeklyPair` | routes/performance.js:84-99 | this week's and the previous week's windows; its contract is `Windows.WeeklyWindows` |
| `Windows.MonthlyPair` | routes/performance.js:116-127 | this month's and the previous month's windows; its contract is `Windows.MonthlyWindows` |
| `Windows.DailyWindows` | routes/performance.js:52-57 | today is [midnight, next midnight) and holds now; yesterday is the day before; they touch and do not overlap |
| `Windows.WeekStart` | routes/performance.js:84-88 | the week starts at a Monday midnight at most six days before now |
| `Windows.WeekStartUnique` | routes/performance.js:84-88 | no other Monday midnight has now within its seven days |
| `Windows.WeeklyWindows` | routes/performance.js:86-99 | the current week is [start, now] inclusive; the previous one is the seven days before, ending where it starts |
| `Windows.MonthStarts` | routes/performance.js:116-117 | the two `new Date` calls give the firsts of this month and of the month before, in the year the constructor reads |
| `Windows.MonthlyWindows` | routes/performance.js:116-127 | the month window starts on the 1st of now's month and holds now; the previous one starts on the 1st of the month before and ends 1 ms before |
| `Windows.DayOfMonth` | routes/performance.js:116-127 | a day number between a month's first and last day belongs to that month |
| `Windows.CurrentMonthWindowInMonth` | routes/performance.js:123 | every instant of the current-month window is in now's month |
| `Windows.PreviousMonthWindowInMonth` | routes/performance.js:127 | every instant of the previous-month window is in the month before |
| `PerformanceRoutes.GetImprovement` | routes/performance.js:43-144 | 404 exactly for an unknown user, 200 otherwise |
| `PerformanceRoutes.PairImprovement` | routes/performance.js:76-81 | one figure of the report; its contract is `PerformanceRoutes.ImprovementReportGating` |
| `PerformanceRoutes.ConsecutiveTotals` | routes/performance.js:61-74 | when a pair's previous window runs up to its current one, the totals over both end to end are the two periods' totals added |
| `PerformanceRoutes.DailyTotalsAddUp` | routes/performance.js:52-74 | yesterday's and today's totals add up to the totals of the two days from yesterday's midnight |
| `PerformanceRoutes.WeeklyTotalsAddUp` | routes/performance.js:84-106 | the previous week's and this week's totals add up to the totals from the previous Monday to now |
| `PerformanceRoutes.MonthlyTotalsAddUp` | routes/performance.js:116-135 | the previous month's and this month's totals add up to the totals from the previous month's 1st to now |
| `PerformanceRoutes.UnknownUserIgnoresRecords` | routes/performance.js:46-47 | for an unknown user the reply is 404 whatever the records and the time |
| `PerformanceRoutes.ImprovementReportGating` | routes/performance.js:76-142 | each of the three figures is null exactly when its current or previous window has no positive attempted sum |
| `PerformanceRoutes.InsertNewestFirst` | routes/performance.js:33 | inserting into a newest-first list keeps it newest first and adds exactly that record |
| `PerformanceRoutes.PerformanceStore.Add` | routes/performance.js:16-20 | appends one record with a fresh id, dated `date` if given and `now` otherwise, and advances the id counter by one; an unknown user gives 500 and no change |
| `PerformanceRoutes.PerformanceStore.Sessions` | routes/performance.js:30-35 | exactly that user's records, as a permutation, in non-increasing date order |
| `Bearer.Split` | routes/auth.js:83 | at least one piece, and no piece holds the separator |
| `Bearer.JoinSplit` | routes/auth.js:83 | joining the pieces gives the string back |
| `Bearer.SplitJoin` | routes/auth.js:83 | splitting joined separator-free pieces gives the pieces back |
| `Bearer.BearerToken` | routes/auth.js:79-83 | a token exactly when the header starts with the case-sensitive "Bearer " |
| `Bearer.BearerTokenIsNextField` | routes/auth.js:83 | the token is what follows "Bearer " up to the next space or the end |
| `Bearer.BearerTokenExamples` | routes/auth.js:79-83 | "Bearer t" gives t for a space-free t; "bearer t" is refused |
| `Auth.InsertKeepsEmailsUnique` | routes/auth.js:19-27 | adding a user with a new email keeps emails unique |
| `Auth.RenameKeepsEmailsUnique` | routes/auth.js:152-171 | giving a user an email no other user has keeps emails unique |
| `Auth.Authenticate` | routes/auth.js:78-91 | a subject only for a header starting with "Bearer " whose token verifies, and then the token's subject |
| `Auth.UserTable.FindByEmail` | routes/auth.js:19 | finds the row with that email, or none exactly when no row has it |
| `Auth.UserTable.Register` | routes/auth.js:11-37 | 400 if a field is missing or empty, then 409 for a taken email, both with no change; else adds exactly one user with the hashed password and replies without it |
| `Auth.UserTable.Login` | routes/auth.js:41-53 | 400 for an unknown email and for a failed digest check; else a token signed over the user's id and the full row |
| `Auth.UserTable.GetUser` | routes/auth.js:75-118 | 401, then 403 for another subject, then 404 for a missing user, else the row without its digest |
| `Auth.UserTable.UpdateUser` | routes/auth.js:121-178 | 401, 403, 400, then 409 for another user's email, with no change; else only that user's name and email change; emails stay unique |

## Left out

- index.js (CORS, dotenv, JSON parsing, `app.listen`): process setup with no logic.
- `GET /users` (routes/auth.js:57-73): it returns every row, digests included, with nothing to prove.
- Prisma's SQL engine and connections. The tables are an in-memory `seq` and `map`, and `findUnique` by email is a search of the map.
- The `Promise.all` parallel reads. They are independent reads, modelled one after another.
- The check-then-create race in register and update. It is a concurrency concern.
- bcrypt and jsonwebtoken internals, token expiry and the `JWT_SECRET` fallback. They are the abstract functions of `Crypto`.
- Auth.UserTable.Register: `Crypto.hash` is a fixed function of the password, while `bcrypt.hash` draws a random salt, so two hashes of one password differ in the source. No property here compares two digests.
- Auth.UserTable.Login: `Crypto.sign` is a fixed function of the claims, while `jwt.sign` also embeds the time of issue. No property here compares two tokens.
- IEEE-754 rounding of accuracies. Accuracies are exact `real`s.
- Time zones with daylight saving, and the host's clock. `now` is a parameter and the offset is fixed.
- Windows.MonthlyWindows: stated for `now` in a year outside 0 to 99. In those years `new Date(now.getFullYear(), …, 1)` reads the year as 1900 to 1999, so the month windows lie in another century; `Windows.MonthStarts` states where they then start.
- Windows.CurrentMonthWindowInMonth: stated for years outside 0 to 99, for the same reason.
- Windows.PreviousMonthWindowInMonth: stated for years outside 0 to 99, for the same reason.
- PerformanceRoutes.MonthlyTotalsAddUp: stated for years outside 0 to 99, for the same reason.
- Invalid dates: `new Date(date)` of an unparsable string, and the limit of plus or minus 8.64e15 ms. The model has no NaN time value.
- 500 replies from thrown exceptions, and error and log messages. Two datastore failures that follow from the data are kept: `/add` for a user who is not in the table (a foreign-key violation), and `PUT /users/:id` for a row that is not there (Prisma's update throws).
- Auth.UserTable.Login: the email and password are plain strings. A missing email makes Prisma's `findUnique` throw, and a missing password makes `bcrypt.compare` throw; both 500 replies are not modelled.
- Non-string request values, such as a number where a name is expected. Fields are strings or absent.
