# siege-reminder, modelled in Dafny

siege-reminder has three parts, and each is modelled here:

- **Background notifier.** While it runs, it wakes every second. Each time the minute of the week (minutes since Monday 00:00 UTC) is new, it selects the users whose daily trigger equals that minute. For each of them it asks the time-tracking service how long they worked on their chosen project since the window start. It then posts a push notice comparing that time with the goal. At minute 0 of each week it clears every user's project.
- **Server functions.** They read and write the `users` table, and they turn the service's statistics reply into a ranked project list or an error message.
- **Page conversions.** The page converts the wall-clock times a user enters into UTC week-minutes, and back again.

Modules, one `.dfy` file each:

- `Wrappers`: `Option` and `Result`.
- `Json`: the decoded reply and the four accessors the program uses.
- `Decimal`: decimal printing and `%02` padding.
- `Clock`: the week-minute of an instant.
- `Schedule`: a user's row and the due-user selection.
- `Hms`: `sec_to_hms`.
- `Stats`: `get_project`, `parse_projects` and the reply-to-error mapping of `query_projects`.
- `Store`: the `users` table as a class over a `map`, with `set_project`, `set_times`, `query_data` and the weekly reset.
- `Engine`: one wake-up of the notifier, as a class holding `last`.
- `LocalTime`: `to_utc`, `from_utc` and the form's day indices.

Time values:

- An instant is an integer count of seconds since 1970-01-01 00:00 UTC.
- A trigger is a week-minute.
- The page's local offset is a whole number of minutes east of UTC.

The outside world enters as parameters:

- **Statistics.** The service is a function from (username, window start) to a `Reply`. A reply is a transport error, or a status with its reason phrase and the body when it decodes as JSON.
- **Table order.** The order in which the selection query returns the due users is an `order` sequence.
- **Database outcome.** Whether a statement succeeds is a boolean (`dbOk`, `selectOk`, `resetOk`).

### Behaviour worth noting

- If more than one day's trigger equals the tick, the goal and the lookback come from the first match in Monday..Sunday order. The weekly flag is set whenever Sunday's trigger matches. An earlier matching day, not Sunday, supplies the goal and the lookback (`Schedule.WeeklyFlagWithEarlierMatch`).
- A Wednesday match looks back to Thursday's trigger, not Tuesday's (`Schedule.WednesdayLookbackReadsThursday`).
- `sec_to_hms` prints exactly one hour as `60m ` and exactly one minute as `60s `, because its tests are `>` and not `>=` (`Hms.HmsOneHour`, `Hms.HmsOneMinute`).
- A due user with the empty project gets the reminder and then ends the whole notifier task. Later users, the weekly reset and all later minutes are never processed (`Engine.RunEmptyProjectStops`, `Notifier.halted`).
- `to_utc` does not reduce its result into the week. A local time that falls before Monday 00:00 UTC or after Sunday 23:59 UTC is stored as a trigger below 0 or above 10079, which no tick ever equals. The page shows that time back unchanged, yet that day's check never happens (`LocalTime.EarlyMondayNeverFires`, `LocalTime.LateSundayNeverFires`).
- `set_times` stores only the seven triggers. The goals the form sends are dropped (`Store.SetTimesDropsGoals`).
- A NULL project is modelled as ending the task, on the assumption that the database library panics when it reads NULL into a `String`. The program's own writes never store NULL: it inserts '' (src/server/server.rs:53), binds a `String` (src/server/server.rs:15-16) and clears to '' (src/notifications.rs:173).
- `src/datatypes.rs` declares `Settings` with seven `String` fields. The server and the page both use seven `(trigger, goal)` integer pairs, and the model uses those pairs.

## Model

| member | source | states |
|---|---|---|
| Clock.WeekMinute | src/notifications.rs:17-28 | The minutes from this week's Monday 00:00 UTC to the instant, truncated, always in 0..10079 |
| Clock.MondayMidnight | src/notifications.rs:17-24 | The week start `monday` lies at or before the instant and less than one week before it |
| Clock.MondayMidnightIsWeekStart | src/notifications.rs:17-24 | The week start is a midnight, falls on a Monday, lies at most one week before the instant, and has week-minute 0 |
| Clock.WeekMinuteOfCalendar | src/notifications.rs:17-28 | The week-minute is weekday·1440 + hour·60 + minute of the instant; the seconds dropped are the instant's seconds within its minute |
| Clock.WeekMinuteClosedForm | src/notifications.rs:25-28 | An independent formula: (minutes since the epoch + 3·1440) mod 10080, the epoch being a Thursday |
| Clock.WeekMinuteNextMinute | src/notifications.rs:25-31 | Sixty seconds later the week-minute advances by one, so every minute is a new tick; Sunday 23:59 rolls over to 0 |
| Engine.Notifier.constructor | src/notifications.rs:14-15 | The task starts with `last` = 0, nothing sent and nothing requested |
| Engine.Notifier.Step | src/notifications.rs:16-183 | A wake-up in the same minute as `last`, or after the task ended, changes nothing. Otherwise `last` becomes the tick. A failed selection stops there. A successful one sends exactly the notices and makes exactly the requests of the loop over the due rows, ends the task if a row ended it, and clears all projects at tick 0 only when the loop finished and the update succeeded |
| Engine.Notifier.ProcessTick | src/notifications.rs:63-180 | The loop over the selected rows, then the reset at tick 0 when the task is still running and the update succeeds |
| Engine.Notifier.VisitAll | src/notifications.rs:63-171 | The notices and requests appended are those of the row-by-row loop, up to and including a row that ends the task |
| Engine.Notifier.VisitLoop | src/notifications.rs:63-171 | The loop visits the rows in order and stops right after one that ends the task. It appends the requests and notices of exactly the rows it visited, and `halted` is set exactly when a visited row ended the task |
| Engine.Notifier.VisitNext | src/notifications.rs:63-170 | One pass appends that row's request and notice, where it has them, and nothing else |
| Engine.StartInMinuteZero | src/notifications.rs:15-31 | A task started during minute 0 processes nothing in that minute and leaves the table as it was |
| Engine.TwiceInOneMinute | src/notifications.rs:29-31 | Two wake-ups within one minute have exactly the effect of the first one |
| Engine.ListsDueAfterClear | src/notifications.rs:172-173 | Clearing the projects leaves the same users due at every minute |
| Engine.DueRows | src/notifications.rs:32-56 | One selected row per due user, in the given order, each being that user's `Select` |
| Engine.SetProjectNotice | src/notifications.rs:66-76 | The reminder goes to that user's topic with one header, the title "Set your project." |
| Engine.Report | src/notifications.rs:122-161 | A report goes to that user's topic with two headers: a title, then the tag "tada" for a difference of zero or more and "warning" below zero |
| Engine.BuildReport | src/notifications.rs:124-161 | Appending the title and tag headers, then formatting the chosen body, builds that report |
| Engine.WindowStart | src/notifications.rs:83-103 | A weekly row's window starts at Monday 04:00 UTC; any other row's starts at Monday 00:00 plus its lookback minutes |
| Engine.VisitRow | src/notifications.rs:63-170 | A row ends the loop exactly when its project is NULL or empty. A request is made exactly when the row does not end the loop, and it is for that user from the window start. An empty project gets the "Set your project." notice |
| Engine.Run | src/notifications.rs:63-171 | The loop makes at most one request and sends at most one notice per row |
| Engine.RunStoppedIff | src/notifications.rs:63-78 | The loop ends the task exactly when one of the rows has a NULL or empty project |
| Engine.RunStoppedHasRow | src/notifications.rs:63-78 | A loop that ended the task met a row with a NULL or empty project |
| Engine.RowStopsRun | src/notifications.rs:63-78 | A row with a NULL or empty project ends the loop, whatever comes before or after it |
| Engine.VisitReported | src/notifications.rs:104-161 | When the reply for the window is a success with a body, the notice is the report of the project's seconds (0 when absent) minus goal·3600 |
| Engine.VisitUnreported | src/notifications.rs:104-115 | When the reply is a transport error, a non-success status or has no decodable body, no notice is sent |
| Engine.VisitUser | src/notifications.rs:63-170 | One user's visit, statement by statement, as the visit function describes it: the request made, the notice built from headers appended in place, and whether the task ends |
| Engine.VisitWithProject | src/notifications.rs:79-122 | With a project, the user is asked for the window starting at Monday 00:00 plus the lookback minutes, or at Monday 04:00 when weekly. A notice follows exactly when the reply is a success carrying a body. The notice is the report of the project's seconds (0 when absent) minus goal·3600 |
| Engine.RunEmptyProjectStops | src/notifications.rs:66-78 | A due user with the empty project receives "Set your project." without any request, and no user after it is visited |
| Engine.RunStoppedPrefix | src/notifications.rs:77 | Once a row has ended the loop, later rows add nothing |
| Engine.RunExtend | src/notifications.rs:63-171 | The loop over one more row is the previous loop extended by that row's visit |
| Engine.RunSkipsFailedUser | src/notifications.rs:104-115 | A user whose request fails, returns a non-success status or has no decodable body gets no notice, and the notices to everyone else are unchanged |
| Engine.ReportTemplates | src/notifications.rs:122-161 | Title, tags and body are chosen by the weekly flag and the sign of the difference, with the difference's magnitude in each body |
| Engine.OneProjectSeconds | src/notifications.rs:186-193 | A reply listing one project yields its total for that name and nothing for any other name |
| Engine.ReportOnGoal | src/notifications.rs:126-133 | An exact hit on a daily goal reads "Good Job!" with an empty difference |
| Engine.ReportHourShort | src/notifications.rs:134-141 | A daily deficit of one hour reads "You need to lock in!" and "60m " |
| Engine.ScenarioGoalMet | src/notifications.rs:79-170 | A Monday check with goal 2 h and 7200 s tracked makes one request and sends "Good Job!" |
| Engine.ScenarioGoalMissed | src/notifications.rs:79-170 | The same check with 3600 s tracked sends the deficit notice, printed as sixty minutes |
| Engine.ScenarioOtherProject | src/notifications.rs:117-122 | A reply that lists only another project counts as zero seconds |
| Engine.ScenarioServerError | src/notifications.rs:109-111 | A 500 reply makes the request but sends nothing and does not end the loop |
| Schedule.FirstMatch | src/notifications.rs:33-41 | A day matches exactly when the user is due; it is the earliest day in Monday..Sunday order whose trigger equals the tick |
| Schedule.Due | src/notifications.rs:55 | A user is due exactly when the tick is one of their seven triggers |
| Schedule.GoalOf | src/notifications.rs:33-41 | A day other than Sunday gives its own goal; with non-negative goals, Sunday's sum is at least Sunday's own goal |
| Schedule.LookbackOf | src/notifications.rs:42-50 | Monday looks back 0 minutes, Wednesday to Thursday's trigger, and every other day to the previous day's trigger |
| Schedule.Select | src/notifications.rs:32-55 | A due row keeps the username and project; its weekly flag is set exactly when Sunday's trigger equals the tick |
| Schedule.SelectGoal | src/notifications.rs:33-41 | The goal is the first matching day's goal; a first match on Sunday gives the sum of all seven goals |
| Schedule.SelectLookback | src/notifications.rs:42-50 | The lookback minute for each matched day, as the `last_time` chain lists it |
| Schedule.FirstMatchIs | src/notifications.rs:33-41 | A matching day with no earlier match is the one the chain takes |
| Schedule.WeeklyFlagWithEarlierMatch | src/notifications.rs:33-54 | When Monday and Sunday share the trigger, the row is weekly but carries Monday's goal and lookback |
| Schedule.WednesdayLookbackReadsThursday | src/notifications.rs:45 | A Wednesday match uses Thursday's trigger as its lookback |
| Schedule.SundayGoalTracksDayGoal | src/notifications.rs:40 | The weekly goal moves one for one with each day's goal |
| Stats.GetProject | src/notifications.rs:186-193 | The loop with early returns computes the seconds `get_project` defines |
| Stats.ProjectSeconds | src/notifications.rs:186-193 | A reply without a `data.projects` array gives nothing; seconds found are a 64-bit integer |
| Stats.ProjectSecondsFromList | src/notifications.rs:186-190 | Seconds found come from the reply's project list, from an entry carrying the project's name |
| Stats.Lookup | src/notifications.rs:187-192 | Seconds found are within the signed 64-bit range |
| Stats.LookupNamed | src/notifications.rs:187-190 | Seconds found are the total of an entry named exactly the project |
| Stats.LookupFound | src/notifications.rs:187-190 | The first entry named exactly the project, reached past entries with other string names, decides the result: its total when that is a 64-bit integer |
| Stats.LookupBadName | src/notifications.rs:188 | An entry without a string name, reached before a match, makes the lookup fail |
| Stats.LookupMissing | src/notifications.rs:187-192 | No entry with the name gives nothing |
| Hms.SecToHms | src/notifications.rs:195-210 | The text built by appending parts equals the h/m/s rendering of the magnitude |
| Hms.SplitParts | src/notifications.rs:197-205 | h·3600 + m·60 + s is the magnitude; h > 0 exactly above one hour; m > 0 exactly when over a minute remains; m and s never exceed 60; m = 60 only without hours; s = 60 only without minutes |
| Hms.HmsText | src/notifications.rs:195-210 | The text is empty exactly when the difference is zero |
| Hms.Split | src/notifications.rs:197-205 | The hours, minutes and seconds add back up to the magnitude, and the minutes and the seconds never exceed 60 |
| Hms.HmsIgnoresSign | src/notifications.rs:197 | A surplus and a deficit of the same size print alike |
| Hms.HmsOneHour | src/notifications.rs:198-203 | 3600 and -3600 print as "60m " |
| Hms.HmsOneMinute | src/notifications.rs:202-207 | 60 prints as "60s " |
| Hms.HmsHourAndMinute | src/notifications.rs:198-207 | 3660 prints as "1h 60s " |
| Hms.HmsMixed | src/notifications.rs:198-207 | 7200 prints as "2h " and 3661 as "1h 1m 1s " |
| Decimal.NatToString | src/notifications.rs:199 | The decimal text of each part is non-empty and all digits |
| Decimal.NatToStringValue | src/notifications.rs:199 | Reading the printed digits back gives the number |
| Decimal.NatToStringNoLeadingZero | src/notifications.rs:199 | The text starts with 0 only for zero |
| Decimal.NatToStringInjective | src/notifications.rs:199 | Different numbers print differently |
| Json.Get | src/notifications.rs:187 | A member exists exactly for an object holding the key, and it is that key's value |
| Json.AsArray | src/notifications.rs:187 | Only an array yields its items |
| Json.AsStr | src/notifications.rs:188 | Only a string yields its text |
| Json.AsI64 | src/notifications.rs:189 | Only an integer within the signed 64-bit range yields a value; it is that integer |
| Json.ProjectList | src/notifications.rs:187 | The list exists exactly when `data` has `projects` and that is an array, and it is that array's items |
| Stats.ParseAll | src/server/server.rs:162-169 | The list parses exactly when every entry has a string `name`, a string `text` and an i64 `total_seconds`; then there is one entry per item, in order |
| Stats.EntryOf | src/server/server.rs:164-168 | An entry parses exactly when it has a string `name`, a string `text` and an i64 `total_seconds`, and then it carries those three values |
| Stats.CollectEntries | src/server/server.rs:162-169 | The loop with early returns collects exactly the entries `ParseAll` defines |
| Stats.RankEntries | src/server/server.rs:170-171 | Sorting by total and reversing gives the entries as a permutation, in non-increasing order of total, carrying name and text |
| Stats.SortByTotal | src/server/server.rs:170 | The entries are rearranged into ascending order of total, as a permutation |
| Stats.Insert | src/server/server.rs:170 | One insertion step extends the sorted prefix by one, as a permutation |
| Stats.ReverseMultiset | src/server/server.rs:171 | Reversing keeps every entry |
| Stats.ParseProjects | src/server/server.rs:159-172 | Fails exactly when the list or an entry is malformed; otherwise the projects are the entries, as a permutation, in non-increasing order of total, carrying name and text |
| Stats.StatusError | src/server/server.rs:138-146 | 404 is "Username not found"; any other non-success status gives its reason phrase, or "Unknown error" without one; a success gives no error |
| Stats.ReplyError | src/server/server.rs:126-156 | A transport error gives its message; a failed status gives the status error. No error is returned exactly when the status succeeds, the body decodes and the list parses |
| Stats.ReplyErrorCases | src/server/server.rs:138-156 | Each failure kind gives its own message, in the order checked |
| Stats.QueryProjects | src/server/server.rs:122-157 | Fails exactly when the reply has an error, with that message; otherwise returns the ranked list |
| Store.WithProject | src/server/server.rs:15-17 | Only that user's project changes; other rows keep their values; an unknown user changes nothing |
| Store.WithTimes | src/server/server.rs:28-37 | Only that user's seven triggers change; goals, project and other rows keep their values |
| Store.SetTimesDropsGoals | src/server/server.rs:28-36 | A goal that differs from the stored one, sent with the times, is not what the row holds afterwards |
| Store.ClearAll | src/notifications.rs:173 | Every user keeps their schedule and has the empty project |
| Store.ClearAllIdempotent | src/notifications.rs:172-180 | Clearing twice is clearing once |
| Store.UserTable.SetProject | src/server/server.rs:14-24 | On success only that row's project changes; on a database failure nothing changes and the error is "Database error" |
| Store.UserTable.SetTimes | src/server/server.rs:27-41 | On success only that row's triggers change; on a database failure nothing changes and the error is "Database error" |
| Store.UserTable.QueryData | src/server/server.rs:44-120 | A reply error is returned before the table is touched, and a database failure changes nothing. An existing row is returned unchanged, with a NULL project as "", and the table is not modified. A new user is inserted with project "", every trigger 0 and goals 1,1,1,1,1,3,3, and those values are returned |
| Store.UserTable.ClearProjects | src/notifications.rs:172-173 | Every row's project becomes "" and schedules are kept |
| LocalTime.ParseWellFormed | src/pages/Home.rs:18 | A zero-padded "HH:MM" with hour below 24 and minute below 60 parses to its two fields |
| LocalTime.ParseHm | src/pages/Home.rs:18 | A parsed time has an hour below 24 and a minute below 60 |
| LocalTime.ToUtc | src/pages/Home.rs:17-28 | An unparsable time is minute 0. A parsable time on day d gives a minute r with d·1440 ≤ r + offset < d·1440 + 1440; r itself can fall outside day d and outside 0..10079 |
| LocalTime.ToUtcValue | src/pages/Home.rs:17-26 | A zero-padded HH:MM on day d is d·1440 + hh·60 + mm minus the offset, not reduced into the week |
| LocalTime.ToUtcCanBeNegative | src/pages/Home.rs:17-26 | 00:30 on Monday, one hour east of UTC, is minute -30 |
| LocalTime.ToUtcUnparsable | src/pages/Home.rs:27 | An unparsable time is minute 0 |
| LocalTime.EarlyMondayNeverFires | src/pages/Home.rs:17-26 | Monday 00:30 entered one hour east of UTC is stored as -30, which no tick ever equals |
| LocalTime.LateSundayNeverFires | src/pages/Home.rs:17-26 | Sunday 23:00 entered five hours west of UTC is stored as 10320, which no tick ever equals |
| LocalTime.ToUtcNextDay | src/pages/Home.rs:21 | The same parsable time one day later is 1440 minutes later |
| LocalTime.FromUtc | src/pages/Home.rs:30-40 | The result is a zero-padded "HH:MM" whose hour and minute give (minutes + offset) mod 1440, negative minutes included |
| LocalTime.FromUtcBeforeWeekStart | src/pages/Home.rs:30-40 | Minute -1 at offset 0 shows as "23:59", the previous evening's wall-clock time |
| LocalTime.Pad2Digits | src/pages/Home.rs:38 | The two characters of a padded field are its tens and its units |
| Decimal.Pad2 | src/pages/Home.rs:38 | A two-digit field whose digits read back as the number |
| LocalTime.RoundTrip | src/pages/Home.rs:17-40 | Showing a stored trigger gives back the zero-padded HH:MM that was entered, for every day and offset |
| LocalTime.RoundTripMinutes | src/pages/Home.rs:17-40 | A minute shown as local time and entered again on its local day is the same minute |
| LocalTime.FormSchedule | src/pages/Home.rs:66-95 | Day d of the submitted schedule is the time of form field d converted with day index d (Monday 0 .. Sunday 6), paired with its goal |
| LocalTime.FormScheduleSpacing | src/pages/Home.rs:66-95 | With the same parsable time on every day, consecutive days' triggers are 1440 apart |
| LocalTime.FormTriggerNearDay | src/pages/Home.rs:17-26 | With an offset under a day, a day's trigger lies within a day of that day's UTC span |

## Left out

- HTTP: the requests to the time-tracking service and to the push service, their URLs, RFC 3339 formatting and headers beyond title and tags. The statistics reply is a function parameter, and a sent notice is a value appended to `Notifier.sent`.
- Posting a notice always succeeds: the `.unwrap()` on both sends (src/notifications.rs:76, 170) is not modelled.
- Clock reads: `now` is a parameter of `Notifier.Step`. The notifier reads the clock several times in one wake-up; here they are one instant, so a wake-up cannot straddle midnight.
- Async runtime, the one-second interval, and concurrent server calls: the model is one wake-up or one call at a time.
- SQL and SQLite: the text of the statements is not modelled; the table is a map.
  - The order in which the selection returns due users is the parameter `order`.
  - Each statement's success is a boolean parameter.
  - A NULL trigger or goal column, which makes `query_data` return "Database error", is not modelled; triggers and goals are always integers.
- 64-bit integers: `to_utc` returns i64 and `get_project`'s totals are range-checked as i64. Overflow of goal·3600, of SQLite's sum of goals and of the difference is not modelled, because integers are unbounded here.
- HTTP reason phrases: a non-success status's canonical reason phrase is part of the reply; the library's table of phrases is not modelled.
- JSON decoding: the body is already a JSON value or absent. The decoder itself is not modelled.
- The `.expect` when a goal field does not parse as a number (src/pages/Home.rs:69-93): goals enter `LocalTime.FormSchedule` as integers.
- Offsets that are not whole minutes, and the local-time lookup of the offset.
- LocalTime.ParseHm: accepts one or two digits, a colon, one or two digits and nothing else. The date library's whitespace skipping and its other `%H:%M` corner cases are not modelled.
- Stats.ParseProjects: the order among projects with equal totals is not stated (the stable sort then reversal puts them in reverse input order); only the permutation and the non-increasing order are proved.
- Diagnostics: `dbg!(time_passed)` (src/notifications.rs:30) and the `eprintln!` of a failed selection or reset (src/notifications.rs:59, 176) write to standard error only; the model keeps their control flow and drops the output.
- A NULL `project` column: reading it into a `String` is assumed to panic and end the task; the database library's behaviour is not modelled, and no write of the program stores NULL.
- The page's UI: signals, resources, the clock display and the submit wiring around `update`.
