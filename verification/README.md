# Cassocial verification

A Dafny model of the parts of Cassocial whose correctness is an argument over all inputs or whole
runs, with the proofs of that correctness. `dafny verify dfyconfig.toml` checks everything.

**The cron engine** is the core. `CronParser` and `CronSchedule` model the parser of six-field
expressions down to the characters, with its errors and its 64-bit loop counter, and `next`, which
skips whole months, days, hours and minutes. `Calendar` is the Gregorian calendar `next` computes
with. The main results: `next` returns what a scan second by second finds, `None` standing for Go's
zero time (`Next`, `NextFireIsEarliest`); it gives up exactly under a condition that can be read off
the masks and the start (`NextFireNone`), which separates the schedules that never fire again from those
whose next firing time it misses (`NextFireMisses`); and a written expression parses to a schedule that
matches exactly when the parser's reading of the notation says so (`WrittenCronMatches`). When that is the
plain reading is stated exactly too (`PlainCronMatches`); steps far from 2^63 suffice
(`SmallStepsCronMatches`). The calendar is tied down from outside its formulas: month lengths, known times,
and the one numbering of weekdays that puts a known Sunday at 0 (`WeekdayIsTheOne`); `CronTasks` works out a
task of the repository down to the second. Masks are sets of bit positions below 64, which is what a `uint64`
under `|`, `&^` and single-bit `&` is. `Scheduler` builds on this: with a tick in every second a task is
dispatched at exactly the matching seconds, announced before by its next run except for a first dispatch whose exact
condition is stated, and in every interleaving the run counters count the runs and the error shown is that of
the run that finished last.

**Around it**, each module with its own law:

- `RateLimiter`: how many requests get through at most, that one is refused only when its last window is full,
  what `GetRemaining` means, and from which window length on cleanup becomes visible.
- `PdfContent`, `PdfDoc`, `PdfPage`, `PdfPicture`: a file as `render` writes it, followed from its trailer over
  the references between its objects, leads to the page, and the page's content paints what was drawn. The
  reader (`PdfReader`, `PdfStructure`) and the operators (`PdfPicture`) are written after ISO 32000-1 and use
  nothing of the writer.
- `Notifications`: nothing is lost or handed over twice in any interleaving, and exactly when a `Start` puts
  the order at risk.
- `Links`: positions stay contiguous over whole runs of the service, of the handlers, and of both.
- `Sessions`, `SessionRuns`: with GetSession split where it lets go of its lock, lazy and eager removal agree,
  and exactly which calls show a cleanup before them; the counts agree with each other; when expiry is final.
- `Slugs`, `Rebind`, `HtmlEscape`: what a name's characters become, a search that ends and when its result is
  taken, a substitution that keeps its meaning, and an escape that can be undone.

A class models each object whose methods update fields; its methods are proved against functions on
values, and the laws are lemmas about those functions. Clock readings, random identifiers, database
failures and Unicode's lower-case table are parameters.

## Where code and documentation differ

- `parseField`'s comment counts `*/n` as a star field (src/scheduler/cron.go:75-76). The code does so
  for n = 1 only; the model follows the code (`StepStar`).
- `parseField` promises values of the field's range. With a step close to 2^63 the counter wraps
  around and the loop also sets bits below the first value (`WrappedStep`). `WrapThreshold` gives the
  exact bound per part, `PlainlyExactly` the exact condition for a field to be read plainly, and
  `FieldWithinRange` that for the range.
- `next` says it returns the earliest matching time. It looks at six calendar years, so it misses the next
  firing of exactly the schedules that fire on 29 February only and have none in these years
  (`NextFireMisses`), as around 2100 (`LeapGap`).
- A status shows NextRun as the next firing. `RegisterTask` can run while the loop is ticking, even between
  a tick's stamp and its lock; a tick stamped up to the second of registration then dispatches a matching
  task whose NextRun is already later (`EarlyTick`, `AnnouncedExactly`).
- `GetRemaining` is exact only for a positive limit and a window that is not negative
  (`RemainingIsExact`): the first request of a window is always let through.
- `UpdateSessionActivity`, `ExtendSession` and a `GetSession` that is past its check revive a session that has
  expired but is not yet cleaned up. A cleanup right before a call shows exactly when the call does this
  (`CleanupShowsAtRevivals`, `SessionRuns.CleanupVisible`, `GetRevives`). An earlier cleanup can also show when
  a `GetSession` writes to a session removed under it (`StrayShows`).
- A `Start` can let a later notification overtake an earlier one exactly when an earlier `Stop` has not
  returned (`StartOvertakes`, `Overtaking`).
- `generateUniqueSlug` treats a failed query as "does not exist". Its result is taken exactly when a query
  fails before a free candidate was reached (`CopyTaken`, `TakenCopy`).
- `text` and the other drawing methods take any float; an infinity or NaN prints a word, which a reader takes
  for an operator (`ReadDrawn`).
- The link service numbers from 1, the handlers from 0 in the same table (`RankedByKind`).
- `Rebind` also rewrites a `?` before a digit, and leaves a `$` before a digit to be taken for a
  placeholder (`RebindFaithful`).

## Model

| member | source | states |
|---|---|---|
| Calendar.DateOfSuccessor | src/scheduler/cron.go:182-187 | counting days up by one walks the calendar date by date, after the month lengths and the leap rule |
| Calendar.DateOfDayNumber | src/scheduler/cron.go:182-190 | reading the date of a normalised `time.Date` gives that date back |
| Calendar.DayNumberOfDate | src/scheduler/cron.go:182-190 | every day number has a valid date whose number it is |
| Calendar.MonthLengths | src/scheduler/cron.go:182-187 | the months have 31 and 30 days in turn, anew from August on; February has what is left of the year |
| Calendar.KnownTimes | src/scheduler/cron.go:174-180 | second 0 is the first of year 1, Go's zero time, and the Unix epoch is 62135596800 seconds later |
| Calendar.TimeReadsBack | src/scheduler/cron.go:182-190 | `time.Date` of a date and a time of day reads back as both |
| Calendar.AddedDates | src/scheduler/cron.go:182-186 | `AddDate` moves by days of 86400 seconds at the same time of day, and takes a year for twelve months |
| Calendar.WeekdaySuccessor | src/scheduler/cron.go:163 | weekdays follow each other in a cycle of seven |
| Calendar.WeekdayIsTheOne | src/scheduler/cron.go:163 | the weekday is the only numbering by 0 to 6 that goes on by one each day and makes Sunday, 7 January 2024, day 0 |
| Calendar.YearThreshold | src/scheduler/cron.go:175-180 | the year of a second reaches a limit exactly from that year's first second on |
| Calendar.NextMonthSkips | src/scheduler/cron.go:181-184 | the jump to the first of the next month goes forward and over seconds of the same month only, December included |
| Calendar.NextDaySkips | src/scheduler/cron.go:185-188 | the jump to the next midnight goes forward and over seconds of the same day only |
| Calendar.NextHourSkips | src/scheduler/cron.go:189-192 | the jump to the next full hour stays within the same day and hour until it lands |
| Calendar.NextMinuteSkips | src/scheduler/cron.go:193-196 | the jump to the next full minute stays within the same day, hour and minute until it lands |
| CronParser.ReadPart | src/scheduler/cron.go:85-127 | a part that is accepted has min <= lo <= hi <= max and a positive 64-bit step; a star is the whole range |
| CronParser.SetValues | src/scheduler/cron.go:129-131 | the 64-bit loop adds the part's progression and exactly the values below lo that wrapping around reaches |
| CronParser.WrapThreshold | src/scheduler/cron.go:129-131 | the loop computes exactly what the part denotes if and only if lo + 2 * step < 2^64 |
| CronParser.ParseField | src/scheduler/cron.go:77-139 | the mask is the union over the comma parts, star is set when one part is a full "*", the first bad part gives the error |
| CronParser.ReadPartsFailAt | src/scheduler/cron.go:85-127 | the error of a field is that of its first bad part |
| CronParser.BadStep | src/scheduler/cron.go:88-98 | a step that is no positive number is reported first, whatever the range is |
| CronParser.SpanErrors | src/scheduler/cron.go:106-127 | of a range a-b the start is reported first, then the end, then that it is reversed or out of the field; else it is read as that range |
| CronParser.ValueErrors | src/scheduler/cron.go:116-127 | a single value is no number, out of the field, or read as itself |
| CronParser.FieldMask | src/scheduler/cron.go:134-138 | a field that parses has a value within its range and none above it, so "no values matched" cannot happen; a star field has them all |
| CronParser.FieldWithinRange | src/scheduler/cron.go:125-131 | no value below the minimum is set, exactly unless the minimum is 1 and some part wraps around to 0 |
| CronSchedule.ReadCron | src/scheduler/cron.go:31-55 | an expression that parses has six non-empty fields within their ranges |
| CronSchedule.ParseCron | src/scheduler/cron.go:31-73 | the schedule is that of the six fields read, with day-of-week 7 folded into 0; a wrong field count or the first bad field is the error |
| CronSchedule.FirstBadField | src/scheduler/cron.go:41-55 | the error of an expression names the position of its first bad field and is that field's error |
| CronSchedule.WrongFieldCount | src/scheduler/cron.go:32-35 | any other number of words than six is an error that tells the number |
| CronSchedule.ParsedSchedules | src/scheduler/cron.go:57-72 | every parsed schedule has a value within range in each mask, and a star day field has the full mask, also after the folding |
| CronSchedule.CronDayRule | src/scheduler/cron.go:161-169 | dayMatch is the cron rule on the fields as written: a star day field never constrains, two restricted ones are alternatives, Sunday is 0 or 7 |
| CronSchedule.FirstMatchIsLeast | src/scheduler/cron.go:171-172 | the scan second by second finds the least matching second of an interval, or there is none |
| CronSchedule.Next | src/scheduler/cron.go:173-203 | the loop that skips months, days, hours and minutes terminates and returns what the scan from the next second to the end of the fifth following year finds |
| CronSchedule.SkipMonth | src/scheduler/cron.go:181-184 | skipping a month outside the mask does not change what the scan finds |
| CronSchedule.SkipDay | src/scheduler/cron.go:185-188 | skipping a day that does not match does not change what the scan finds |
| CronSchedule.SkipHour | src/scheduler/cron.go:189-192 | skipping an hour outside the mask does not change what the scan finds |
| CronSchedule.SkipMinute | src/scheduler/cron.go:193-196 | skipping a minute outside the mask does not change what the scan finds |
| CronHorizon.NextFireIsEarliest | src/scheduler/cron.go:171-203 | a time returned matches, lies after the start, and no second in between matches; none is returned exactly when nothing within the horizon matches |
| CronHorizon.NextFireNone | src/scheduler/cron.go:174-180 | for a parsed schedule the zero time comes exactly when day-of-week is a star, no date of the masks exists in common years, and 29 February, if among them, does not come in time |
| CronHorizon.WeekdayFires | src/scheduler/cron.go:165-167 | a schedule with a restricted day-of-week always gets a next time |
| CronHorizon.CommonDateFires | src/scheduler/cron.go:173-203 | so does one whose masks hold a date of common years |
| CronHorizon.LastTimeIsLast | src/scheduler/cron.go:189-201 | no match of a day is later than the largest hour, minute and second of the masks |
| CronHorizon.NextFireMisses | src/scheduler/cron.go:171-203 | a firing time after the start exists and is missed exactly for schedules that fire on 29 February only, when none comes in the six years looked at; every other zero time means that the schedule never fires again |
| CronHorizon.LeapGap | src/scheduler/cron.go:174-180 | a concrete miss: from 2097 on, a 29 February schedule gets the zero time although it fires again |
| CronNotation.ReadShownPart | src/scheduler/cron.go:85-127 | every part that can be written reads back as its meaning when that is in range, and fails otherwise |
| CronNotation.ReadShownField | src/scheduler/cron.go:77-132 | every comma list that can be written reads back part by part, and fails exactly when a part is out of range |
| CronNotation.ReadShownCron | src/scheduler/cron.go:29-55 | every six-field expression that can be written reads back as its fields, and fails exactly when one is out of range |
| CronNotation.MatchByFields | src/scheduler/cron.go:142-156 | a parsed schedule matches a second exactly when its parts lie in the fields of their own position and the day matches |
| CronNotation.SetsWhatItHolds | src/scheduler/cron.go:129-131 | the parser sets exactly the values a written part says, if and only if lo + 2 * step < 2^64 |
| CronNotation.WrittenCronMatches | src/scheduler/cron.go:29-169 | end to end: every written expression in range parses and matches a second exactly when its fields, read part by part as the parser does, and the cron day rule say so |
| CronNotation.PlainlyExactly | src/scheduler/cron.go:125-132 | the parser reads a field plainly exactly when each value of its range that a part wraps around to is held by some part |
| CronNotation.SmallStepsPlainly | src/scheduler/cron.go:129-131 | so it does when lo + 2 * step < 2^64 for each part |
| CronNotation.PlainCronMatches | src/scheduler/cron.go:29-169 | end to end: a written expression matches every second exactly as the plain notation and the cron day rule say, if and only if its day fields as parsed admit no combination of month, day and weekday that occurs, or its second, minute and hour fields are read plainly and its day fields agree on these combinations |
| CronNotation.SmallStepsCronMatches | src/scheduler/cron.go:29-169 | in particular every expression whose steps are all below the bound |
| CronNotation.StepStar | src/scheduler/cron.go:101-105 | `*/n` is a star field if and only if n is 1, against the comment of parseField |
| CronNotation.WrappedStep | src/scheduler/cron.go:129-131 | a concrete failure: `2/9223372036854775807` as day of month also sets bit 0 |
| CronTasks.AcceptedNumbers | src/scheduler/cron.go:41-48 | a field takes exactly the numbers that some time shows in its place, Sunday as 0 and as 7 |
| CronTasks.SundayTask | src/scheduler/tasks.go:59-60 | the task "0 0 3 * * 0" matches every Sunday at 03:00:00 and at no other time |
| CronTasks.SundayNext | src/scheduler/tasks.go:59-60 | after the start of Saturday, 6 January 2024, its next time is the next day at three |
| Text.AtoiItoa | src/scheduler/cron.go:92-121 | strconv.Atoi reads a printed natural number back, unless it exceeds 63 bits |
| Text.AtoiSigned | src/scheduler/cron.go:92-121 | it reads a sign and any number of leading zeros too, within 64 bits |
| Text.AtoiOther | src/scheduler/cron.go:92-121 | a word that is not all digits after its sign is no number |
| Text.KnownNumbers | src/scheduler/cron.go:92-121 | decimal notation on four known numbers |
| Text.SplitJoin | src/scheduler/cron.go:85 | strings.Split undoes joining |
| Text.JoinSplit | src/scheduler/cron.go:85 | joining undoes strings.Split |
| Text.FieldsJoin | src/scheduler/cron.go:32 | strings.Fields undoes joining words by spaces |
| Text.FieldsSpaced | src/scheduler/cron.go:32 | however many spaces stand before, between and after words, strings.Fields finds the words |
| Text.AsciiSpaces | src/scheduler/cron.go:32 | of ASCII, the blank and the control characters 9 to 13 are spaces |
| Scheduler.Task.Tick | src/scheduler/scheduler.go:105-116 | a tick fires a task when its second matches and was not fired before, and then stores the second and the next run |
| Scheduler.Task.Run | src/scheduler/scheduler.go:150-179 | a run alone counts itself and its failure, and a disabled task is left as it was |
| Scheduler.Task.BeginRun | src/scheduler/scheduler.go:158-161 | the first locked section does to the counters what the step Begin of the interleavings does, and records the start |
| Scheduler.Task.FinishRun | src/scheduler/scheduler.go:163-179 | the second locked section counts a failure and stores its text, or empties it after a success, as the step Finish of the interleavings does |
| Scheduler.Scheduler.RegisterTask | src/scheduler/scheduler.go:125-147 | a bad schedule leaves the table alone; a good one adds a fresh enabled task with its next run computed from the clock's second |
| Scheduler.NeverFired | src/scheduler/scheduler.go:125-147 | a new task counts as last fired in the first second of year 1, which is also what the lack of a next time is shown as |
| Scheduler.Scheduler.Tick | src/scheduler/scheduler.go:100-122 | every task is ticked once whatever the order, and one run of each due task and of no other is started |
| Scheduler.Scheduler.EnableTask | src/scheduler/scheduler.go:208-220 | an existing task is enabled, an unknown name is an error |
| Scheduler.Scheduler.DisableTask | src/scheduler/scheduler.go:223-235 | an existing task is disabled, an unknown name is an error |
| Scheduler.Scheduler.RunTaskNow | src/scheduler/scheduler.go:238-251 | a run of the task registered under the name is started, an unknown name is an error and starts none |
| Scheduler.AtMostOncePerSecond | src/scheduler/scheduler.go:109-114 | with nondecreasing ticks the dispatch seconds strictly increase, and only matching seconds are dispatched |
| Scheduler.DispatchedAtMatchingTicks | src/scheduler/scheduler.go:100-122 | with any nondecreasing ticks a new task is dispatched at exactly those ticks that match |
| Scheduler.DispatchedOnSchedule | src/scheduler/scheduler.go:93-147 | with ticks that miss no second after registration, the first perhaps stamped earlier, the dispatches are exactly the matching seconds from the first tick on |
| Scheduler.AnnouncedExactly | src/scheduler/scheduler.go:93-147 | each dispatch was announced by the next run stored before it, or that was the zero time, exactly unless some tick is stamped with a matching second up to that of registration and `next` finds a time after it |
| Scheduler.EarlyTick | src/scheduler/scheduler.go:93-141 | the failing inputs: a matching tick stamped up to the second of registration dispatches the task while its next run is another time |
| Scheduler.StepCounts | src/scheduler/scheduler.go:150-179 | no step of a runTask goroutine, and no enabling or disabling, breaks the counts |
| Scheduler.RunCounts | src/scheduler/scheduler.go:150-179 | in every interleaving RunCount is successes plus failures plus runs in flight, ErrorCount is failures and never exceeds it |
| Scheduler.CountsThePast | src/scheduler/scheduler.go:158-179 | in every interleaving RunCount is the number of runs begun so far and ErrorCount that of runs failed so far |
| Scheduler.LastErrorIsTheLast | src/scheduler/scheduler.go:163-174 | in every interleaving LastError is the failure of the run that finished last, and empty when that one succeeded |
| Scheduler.NoErrorAtFirst | src/scheduler/scheduler.go:163-174 | and empty while none has finished |
| Scheduler.EnabledRunsAreAdmitted | src/scheduler/scheduler.go:150-161 | a run that finds the task enabled is never skipped |
| Scheduler.StaysEnabled | src/scheduler/scheduler.go:208-235 | a task stays as the last EnableTask or DisableTask left it |
| Scheduler.DisabledRunsAreSkipped | src/scheduler/scheduler.go:151-153 | a run that finds the task disabled changes no counter, then or later |
| RateLimiter.RateLimiter.constructor | src/server/ratelimiter.go:24-36 | a new limiter is empty and cleans up with an interval of five minutes, so its windows may be ten minutes long |
| RateLimiter.RateLimiter.Allow | src/server/ratelimiter.go:39-76 | the answer and the entry stored are those that the runs of the laws below perform; other identifiers keep theirs |
| RateLimiter.RefusedOnlyWhenFull | src/server/ratelimiter.go:39-76 | after any run, with cleanups and resets, a request is refused only when the window that ends with it already holds max(limit, 1) requests let through |
| RateLimiter.LastAccessIsLastCall | src/server/ratelimiter.go:50-75 | an entry remembers when its identifier called Allow last, refused or not |
| RateLimiter.RateLimiter.Reset | src/server/ratelimiter.go:79-83 | the identifier's entry is gone and the others stay, as in the runs below |
| RateLimiter.ResetStartsAnew | src/server/ratelimiter.go:79-83 | after it the identifier has its whole limit again, and others notice nothing |
| RateLimiter.RateLimiter.Cleanup | src/server/ratelimiter.go:96-107 | exactly the entries unused for more than twice the interval are removed |
| RateLimiter.RateLimiter.GetRemaining | src/server/ratelimiter.go:110-130 | the limit without a running window, else what is left of it, never below 0 |
| RateLimiter.CleanupInvisible | src/server/ratelimiter.go:96-107 | with a window of at most twice the cleanup interval, cleanups inserted anywhere change no answer of Allow or GetRemaining |
| RateLimiter.CleanupThreshold | src/server/ratelimiter.go:96-107 | and for no longer window: the bound is exact |
| RateLimiter.TwiceTheLimit | src/server/ratelimiter.go:39-76 | at most 2 * max(limit, 1) requests of an identifier get through in any closed time span of one window |
| RateLimiter.TheLimitPerWindow | src/server/ratelimiter.go:56-75 | at most max(limit, 1) get through in the limiter's own window |
| RateLimiter.RemainingIsExact | src/server/ratelimiter.go:110-130 | GetRemaining is how many further calls at that instant succeed, in every state, if and only if the limit is positive and the window not negative |
| PdfContent.PdfEscapeString | src/server/service/pdf.go:74-91 | the loop builds the escape of every character in order |
| PdfContent.PrintableRange | src/server/service/pdf.go:85-87 | the characters kept are those from the blank to the tilde |
| PdfContent.ReadEscaped | src/server/service/pdf.go:74-91 | a literal-string reader (ISO 32000-1, section 7.3.4.2) reads an escaped string as exactly its printable ASCII characters |
| PdfContent.ReadTextOperand | src/server/service/pdf.go:35-37 | and finds the closing parenthesis where text put it |
| PdfContent.ReadLine | src/server/service/pdf.go:25-37 | a line of tokens reads back token by token (section 7.2.2), whatever follows it |
| PdfContent.ReadDrawn | src/server/service/pdf.go:25-37 | the content gives back every fill colour, rectangle and text drawn, with its operands in order (section 7.8.2), exactly when no number drawn with is an infinity or NaN |
| PdfPicture.PictureDrawn | src/server/service/pdf.go:25-37 | executed as ISO 32000-1 describes the operators (8.5, 8.6.8, 9.4), the content paints the rectangles and texts drawn, in order, at their places, each in the colour set last, texts in font F1 at their size |
| PdfContent.ShownAscii | src/server/service/pdf.go:47 | the content is ASCII whatever is drawn, so its length in characters, which /Length gives, is that in bytes |
| PdfDoc.PdfDoc.SetFillColor | src/server/service/pdf.go:25-27 | the content stays the text of what was drawn, now with this colour last; ReadDrawn says what a reader gets from it |
| PdfDoc.PdfDoc.FillRect | src/server/service/pdf.go:30-32 | the same for this rectangle |
| PdfDoc.PdfDoc.Text | src/server/service/pdf.go:35-37 | the same for this text |
| PdfDoc.PdfDoc.Render | src/server/service/pdf.go:40-70 | the bytes written are header, objects, table and trailer with the offsets where the objects start |
| PdfDoc.ObjectAt | src/server/service/pdf.go:54-58 | the object's text stands at the offset recorded for it |
| PdfDoc.OffsetsIncrease | src/server/service/pdf.go:54-58 | offsets strictly increase |
| PdfDoc.ReadEntryText | src/server/service/pdf.go:64-66 | a table entry has 20 bytes and reads back (section 7.5.4) exactly for offsets below 10^10 |
| PdfDoc.ReadTable | src/server/service/pdf.go:62-66 | the whole table reads back entry by entry, exactly while the offsets have ten digits |
| PdfDoc.ReadStream | src/server/service/pdf.go:47 | /Length is the content's length, so the stream reads back whatever it contains (section 7.3.8) |
| PdfDoc.ReadBackXref | src/server/service/pdf.go:60-67 | startxref leads to the table (section 7.5.5) |
| PdfDoc.ReadRendered | src/server/service/pdf.go:40-70 | the five objects are recovered for any page size and content, if and only if the last object starts below 10^10 bytes |
| PdfPage.ReadSpelled | src/server/service/pdf.go:43-49 | a sequence of names, numbers, brackets and references, written with or without blanks where the syntax lets them out, reads back token by token |
| PdfPage.TrailerFound | src/server/service/pdf.go:67 | behind the table the trailer gives the number of entries and the catalog (section 7.5.5) |
| PdfPage.CatalogFound | src/server/service/pdf.go:43 | the reference in the trailer leads to the catalog, which names the page tree (section 7.7.2) |
| PdfPage.PageFound | src/server/service/pdf.go:44-48 | the page tree leads to the one page, it to its media box, content and font, and back to the tree (section 7.7.3) |
| PdfPage.ReadPageBack | src/server/service/pdf.go:40-70 | followed from the trailer over the references, a file gives page size, content and base font back exactly when both sizes are finite and the last object starts below 10^10 bytes, and nothing otherwise |
| PdfPage.ReadDrawnDocument | src/server/service/pdf.go:25-70 | end to end: read so, a document gives back page size, font and everything drawn, exactly when its size and all numbers drawn with are finite and the last object starts below 10^10 bytes; the operations found paint the picture drawn |
| Notifications.NotificationManager.Queue | src/service/notifications.go:136-153 | a disabled kind is dropped, priority 5 is handed over at once, anything else joins the end of the queue |
| Notifications.EnabledExactly | src/service/notifications.go:210-229 | each of the seven kinds has its own preference, any other kind is always enabled |
| Notifications.NotificationManager.TakeBatch | src/service/notifications.go:157-160 | the locked section takes the whole queue and leaves it empty, as the step Take of the interleavings does |
| Notifications.NotificationManager.ProcessQueue | src/service/notifications.go:156-171 | alone, it hands over the whole queue in order |
| Notifications.NotificationManager.Stop | src/service/notifications.go:105-121 | a running manager stops and drains the queue, one that is not running does nothing |
| Notifications.StepConserves | src/service/notifications.go:136-171 | no step moves a notification to two places or to none |
| Notifications.ExactlyOnePlace | src/service/notifications.go:105-171 | in every interleaving each accepted notification is once in the queue, in a batch or handed over |
| Notifications.HandedInOrder | src/service/notifications.go:105-171 | when each Start waits for the earlier Stops to return, the hand-overs are a prefix of the acceptance order in every interleaving |
| Notifications.StartOvertakes | src/service/notifications.go:90-171 | from an orderly stopped state, a Start admits a continuation, with no further Start, that hands over out of order if and only if some Stop has not returned |
| Notifications.Overtaking | src/service/notifications.go:90-121 | the failing input: one notification accepted, Stop called, and Start called again before it returns |
| Links.LinkService.NextPosition | src/server/service/link_service.go:351-361 | one more than the largest position of the profile, or than the given start when it has no link |
| Links.LinkService.Create | src/server/service/link_service.go:33-90 | the errors in the source's order; else one row is added, at the next position when none was asked for |
| Links.LinkService.Delete | src/server/service/link_service.go:210-240 | an unknown link is an error; else the row goes and the later positions of its profile move down by one |
| Links.LinkService.Reorder | src/server/service/link_service.go:264-289 | the listed links of the profile get 1, 2, ... in list order |
| Links.LinkService.ReorderLinks | src/server/handler/link_handlers.go:482-511 | the links get 0, 1, ... in the order the query returned |
| Links.PositionsContiguous | src/server/service/link_service.go:351-372 | the invariant means that each position from first to first + n - 1 is taken by exactly one link and no other one is |
| Links.RankingUnique | src/server/service/link_service.go:115-116 | contiguous positions determine the order in which a profile's links are listed |
| Links.CountIsLength | src/server/service/link_service.go:303-315 | the count that the limit on links is checked against is the length of that listing |
| Links.CreateRanked | src/server/service/link_service.go:62-67 | a link at the next position comes last and keeps the positions contiguous |
| Links.DeleteRanked | src/server/service/link_service.go:363-372 | deleting closes the gap and keeps the survivors' order |
| Links.DeleteElsewhere | src/server/service/link_service.go:363-372 | links of other profiles are untouched |
| Links.OnlyPositionsChange | src/server/service/link_service.go:264-372 | deleting and reordering add and remove no other row, and change nothing of a row that stays but its position; deleting only of those strictly behind, even where positions are taken twice |
| Links.ReorderRanked | src/server/service/link_service.go:264-289 | reordering by a permutation puts a profile in exactly that order and leaves the other profiles alone |
| Links.ReorderLinksRanked | src/server/handler/link_handlers.go:482-511 | any positions become 0..n-1 and strict order is kept |
| Links.ReorderLinksIdempotent | src/server/handler/link_handlers.go:482-511 | a second renumbering changes nothing |
| Links.DeleteLinkRanked | src/server/handler/link_handlers.go:312-325 | the handler's delete leaves the survivors at 0..n-1 in their strict order |
| Links.ApplyKeepsRanking | src/server/service/link_service.go:33-289 | each operation of the service or the handlers keeps every profile's positions contiguous, from where they started or from its own base |
| Links.AlwaysRanked | src/server/service/link_service.go:33-289 | from an empty table on, every profile's positions are contiguous after every run, from the base of one of the kinds of operation in it |
| Links.RankedByKind | src/server/handler/link_handlers.go:462-511 | with the service alone they are 1..n, with the handlers alone 0..n-1, with both on one table one of the two |
| Sessions.SessionManager.constructor | src/server/session.go:38-53 | a new manager is empty, its timeout the given minutes or 24 hours for zero |
| Sessions.SessionManager.CreateSession | src/server/session.go:56-80 | a session of the full timeout with the ID and everything the caller gave is stored under its ID; without randomness nothing changes |
| Sessions.SessionManager.GetSession | src/server/session.go:83-106 | alone, its sections in a row: an unknown ID fails, an expired session is removed and fails, a live one is returned and prolonged |
| Sessions.SessionManager.DestroyUserSessions | src/server/session.go:125-134 | exactly the user's sessions are removed |
| Sessions.SessionManager.GetUserSessions | src/server/session.go:137-151 | exactly the user's active sessions, each once |
| Sessions.SessionManager.GetActiveSessions | src/server/session.go:166-180 | the number of active sessions |
| Sessions.SessionManager.GetActiveUsers | src/server/session.go:183-197 | the number of users with an active session |
| Sessions.SessionManager.CleanupExpired | src/server/session.go:210-220 | exactly the expired sessions are removed |
| Sessions.SessionManager.UpdateSessionActivity | src/server/session.go:153-163 | a stored session is prolonged, expired or not, as in the runs below |
| Sessions.SessionManager.ExtendSession | src/server/session.go:222-234 | a stored session gets the new expiry, expired or not, and an unknown ID is an error |
| Sessions.CreatedActive | src/server/session.go:56-80 | a new session is active until its expiry and no longer, and its user's and nobody else's |
| Sessions.LookedUp | src/server/session.go:83-106 | a lookup up to the expiry returns and stores the session with the new activity and a full timeout, everything else as it was |
| Sessions.UpdatedActive | src/server/session.go:153-163 | an update stores the activity, makes the session active for a full timeout and changes nothing else |
| Sessions.ExtendedActive | src/server/session.go:222-234 | an extended session is active until exactly the new expiry; its activity and all other sessions stay |
| Sessions.SessionDestroyed | src/server/session.go:117-122 | no lookup finds a destroyed session, and the others stay |
| Sessions.UserDestroyed | src/server/session.go:125-134 | a user whose sessions were destroyed has none left, every other user has the same ones |
| Sessions.CountsAgree | src/server/session.go:137-197 | at one instant the active sessions are the users' lists together, and the active users those with a non-empty list |
| SessionRuns.CleanupInvisible | src/server/session.go:82-106 | cleanups inserted anywhere, between the sections of a GetSession too, change no validity, list or count of a run that, without them, revives no session and in which no GetSession strays to an object no longer stored while another call can tell |
| SessionRuns.CleanupShowsAtRevivals | src/server/session.go:82-234 | in any state, a cleanup right before a call is unobservable, by it and all later calls that neither revive nor stray, if and only if the call revives no session |
| SessionRuns.CleanupVisible | src/server/session.go:154-163 | a failing input: a run in which UpdateSessionActivity makes a cleanup show |
| SessionRuns.GetRevives | src/server/session.go:82-106 | a failing input: a session that is expired and not counted is counted again after the second section of a GetSession |
| SessionRuns.StrayShows | src/server/session.go:82-134 | a failing input without a revival: two GetSessions of a session destroyed meanwhile tell whether it was cleaned up before |
| SessionRuns.ExpiryIsFinal | src/server/session.go:92-106 | a session once expired or destroyed is never counted again and no new GetSession finds it valid, unless its own ID is created anew or prolonged unchecked, or a GetSession of it was past its check |
| Slugs.BaseByCharacter | src/server/service/profile_service.go:438-443 | the three passes over a name work character by character |
| Slugs.AsciiPieces | src/server/service/profile_service.go:436-443 | an ASCII capital contributes the small letter 32 code points on, a small letter, digit, underscore or hyphen itself, a blank a hyphen, any other ASCII character nothing; beyond ASCII the lower case decides |
| Slugs.CaseDoesNotMatter | src/server/service/profile_service.go:436-443 | names that differ in ASCII case only have the same slug |
| Slugs.SlugsAreFixed | src/server/service/profile_service.go:436-443 | a name of slug characters is its own slug |
| Slugs.CandidatesDiffer | src/server/service/profile_service.go:455 | the candidates of a search are pairwise different |
| Slugs.Pigeonhole | src/server/service/profile_service.go:448-457 | so a table of n slugs takes at most n of them |
| Slugs.GenerateSlug | src/server/service/profile_service.go:436-461 | the search stops at the first candidate that is free or whose query fails; it returns a free slug of slug characters, or that query's error |
| Slugs.GenerateUniqueSlug | src/server/service/profile_service.go:463-475 | the same search, but it returns the candidate where it stops |
| Slugs.CopyTaken | src/server/service/profile_service.go:463-475 | the slug it returns is taken if and only if some query fails before a free candidate was reached |
| Slugs.TakenCopy | src/server/service/profile_service.go:463-475 | the failing input: the copy's name is taken and the first query fails |
| Slugs.SecondCopy | src/server/service/profile_service.go:463-475 | with "base-copy" taken the next copy is "base-copy-1" |
| Slugs.GeneratedSlugValid | src/server/service/profile_service.go:477-481 | a generated slug is valid exactly with 3 to 100 characters |
| Slugs.CaseDoesNotInvalidate | src/server/service/profile_service.go:477-481 | isValidSlug takes capitals too: it does not depend on ASCII case |
| Slugs.NothingLeft | src/server/service/profile_service.go:436-443 | a name without usable characters gives the empty slug, which isValidSlug rejects |
| Rebind.Rebind | src/server/store/sqlite.go:61-76 | for postgres and pgx the loop numbers the placeholders in order, for other drivers the query is kept |
| Rebind.BoundAlike | src/server/store/sqlite.go:59-76 | numbered arguments in the rebound query give the text that arguments in order give in the original |
| Rebind.RebindFaithful | src/server/store/sqlite.go:59-76 | for all arguments, exactly when no `?` and no `$` of the query stands directly before a digit |
| HtmlEscape.FivePassesAreOne | src/server/service/export_service.go:411-418 | the five replacements are one pass from left to right |
| HtmlEscape.NoMarkup | src/server/service/export_service.go:411-418 | no angle bracket or quote is left |
| HtmlEscape.DecodeMapped | src/server/service/export_service.go:411-418 | decoding the five entities recovers the text |
| HtmlEscape.EscapeInjective | src/server/service/export_service.go:411-418 | no two texts escape alike |

## Left out

- CronSchedule.Next: works in UTC; other zones, daylight saving and years beyond Go's range are not modelled, and `None` stands for the zero time, which Go cannot tell from the first second of year 1.
- CronSchedule.ReadCron: strings are sequences of Unicode characters; invalid UTF-8 and 32-bit platforms are not modelled, and error texts are.
- CronNotation.WrittenCronMatches: numbers are written without sign and leading zeros, which Atoi also accepts.
- Scheduler.DispatchedOnSchedule: asks for ticks without a gap, since a missed second is a missed dispatch in the source too; `DispatchedAtMatchingTicks` does not. Clocks before Go's zero time are not modelled.
- Start and Stop of the scheduler's loop: the loop reads its stop channel without the lock.
- Scheduler.RunCounts: the handler is its result; logging and durations are not modelled.
- Notifications.NotificationManager.Stop: that it returns; it waits for the loop while holding the lock the loop may need.
- The mailer behind sendNotification, the helper methods that build notifications, and UpdatePreferences.
- RateLimiter.CleanupInvisible: GetResetTime is not among the answers compared, as it differs once an entry is gone.
- SessionRuns.CleanupInvisible: only validity is compared, not whether a failure says "expired" or "not found".
- RateLimiter.TwiceTheLimit: runs with Reset are excluded, since Reset is meant to grant requests anew.
- PdfContent.ReadDrawn: the reader knows words, names, brackets and literal strings, which is all that is written, and takes a word of digits, signs and points for a number.
- PdfDoc.ReadRendered: floating-point formatting; numbers are the text the verbs print, and colorToUnit is not part of this model.
- Links.ReorderRanked: lists with repeated, missing or foreign IDs.
- Links.AlwaysRanked: such lists too, updates of a position, and created links that ask for a position of their own, which Create models. The operations come one after another: creates and deletes are several statements without a transaction, so two concurrent creates can get one position.
- Links.LinkService.Create: database errors other than a repeated key, and columns that do not concern positions, are one field or none.
- Slugs.GenerateSlug: profiles created by others during the search.
- Rebind.BoundAlike: quoted strings and comments in SQL; the source replaces every `?` as well.
- The session manager's getters and the generation of random IDs; each locked section and GetSession's comparison with the clock is one atomic step.
- HTTP handlers, routing, templates, configuration, cryptography, backups, import and export of CSV and JSON, analytics, Tor, TLS and SMTP: input and output or library codecs.
