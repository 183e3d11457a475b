# AgentStudio: verified models of its scheduling, chat and workspace logic

AgentStudio runs scheduled automations and long chat turns for one owner. This project models the
parts of it where a small mistake is hard to see, and proves what they promise, over every input
and every run. It has no dependencies: `dafny verify dfyconfig.toml` checks all of it.

## What is modelled

* **Time (`Zone`, `Calendar`, `CronSearch`, `CronSchedule`, `CronFields`, `CronLine`).** A crontab
  line is read into value sets; the search walks a zone's wall clock and resolves readings to
  instants. A zone is any offset function whose offsets and changes fall on whole minutes, that
  stays within fourteen hours of UTC and changes at most once in any span as wide as the two probes
  of the resolver. The resolver is shown to compute one simple thing, the first instant at which the
  wall clock has reached the reading, and everything else about repeated and skipped hours follows
  from that. Dates follow section 21.4.1 of ECMA-262, fields and the day rule the crontab utility of
  POSIX.1-2017 XCU.
* **Mention matching (`MentionMatch`, `MentionAlign`).** The alignment table, its running gap
  maximum and its source links, against the score of every possible alignment.
* **Automations (`AutomationPolicy`, `AutomationWorld`, `AutomationRuns`, `AutomationEngine`).** The
  engine's rows and queue as a state machine with ticks, executions (with or without the worker's
  report reaching the queue, so re-delivery is a step too), lost jobs, cancellations, manual and
  monitor runs, and the on/off switch; and the engine itself as a class whose methods are proved to
  take those steps.
* **Page and session (`TurnPlan`, `SessionRuns`, `SessionView`, `SessionStore`).** Messages on the
  page are edited and regenerated while the SDK session is an append-only tree of turns. The state
  machine has turns that are refused, fall back, fail to start, lose either of their two background
  writes, or die. A session is shown to see nothing but the page and, while nothing is lost, all of it.
* **Event streams (`SseFraming`, `SseConsumer`, `SseResume`, `SseReplay`).** Framing over arbitrary
  chunks (a subset of section 9.2 of the WHATWG HTML standard), the resuming consumer, the server's
  replay of saved events, and the two ends put together.
* **Shell output (`ShellCard`, `ShellFollow`).** The reducers that merge positioned pieces of output
  into a card, alone against slices in any order, and together with the engine that sends them.
* **Workspace listing (`WorkspaceWalk`)**, **prompt fragments (`FragmentExpand`)**, **prompt slots
  (`PromptSlots`)** and **owner creation (`Provision`)**, with visitors
  who sign in and out meanwhile.

`Text` and `Wrappers` hold text operations and the option and result types.

## What turned out not to hold

Each of these is stated with a concrete case and with the exact condition under which the code does
what it says.

* `0 0 29 2 *` has no run in the search window from 1 March four years before a skipped leap day
  such as 2100 (`CronSchedule.SkippedLeapDayMissed`). A schedule that admits any other date is
  answered in every window, in every zone and from every start; one that admits only 29 February is
  answered exactly when a scheduled time of one is still to come in the window
  (`CronLine.AnsweredExactly`, with `CronSchedule.LeapDaySuffices` and `LeapDayNeeded` for what that
  takes of the calendar).
* A start before the year 100 gets no right answer, under any schedule that some date matches. The
  formatter shows its year without the era and `Date.UTC` reads years up to 99 as years of the
  twentieth century, so the walk begins centuries later (`Calendar.ReadBack`) and passes over every
  run in between: what it finds is right exactly when the start reads as the year 100 or later
  (`CronSchedule.RightFromYear100`). The search itself never meets such a year.
* A tick can take a slot for dead whose retry is still to run. A job that was to be retried and was
  then canceled, or failed in the queue because its report was lost, no longer leads to its retry, and
  the tick moves the schedule on: `AutomationRuns.MissedRetryExample` shows both runs,
  `AutomationRuns.LiveRetryMissed` says when a chain leads astray, `AutomationRuns.BrokenOverRuns`
  which steps of a run make it, and without one of those no slot with a retry to come is taken for
  dead (`AutomationRuns.LiveRetrySeen`).
* A cut of the page can be lost to the session: when an attempt that was refused had already
  announced its session and the fallback never starts, or when a fresh session starts, its join is
  saved and its session id is not. `SessionRuns.StrandedExample` and `SessionRuns.LostSessionExample`
  are whole conversations in which a dropped turn is seen again. In any conversation a turn sees only
  the page exactly when the session it resumes holds no turn a cut dropped
  (`SessionRuns.ConversationsAreJudged`); after a lost cut that is so exactly when the session had
  held no turn of the cut row or of one below it (`SessionRuns.LostCut`); and without a lost cut it is
  always so (`SessionRuns.ConversationsSeeOnlyThePage`).
* The slots kept for a prompt fit the budget, the prompt made of them need not
  (`PromptSlots.SeparatorsPassTheBudget`): it does exactly when the separators fit as well
  (`PromptSlots.PromptFits`).
* The note behind a cut slot is not counted in the room it is cut to, so the cut can fail to make the
  prompt fit and the slot is dropped after all (`PromptSlots.DroppedForItsNote`); `PromptSlots.NoteFits`
  says exactly when one cut is enough, `PromptSlots.LoneSlot` what becomes of a slot alone.
* A listing can be called truncated although nothing is missing, with a folder at the last depth
  (`WorkspaceWalk.EmptyFolderExample`) or when time runs out (`WorkspaceWalk.LateFolderExample`):
  exactly when it fits, some directory was not looked into in time or some folder lies at the last
  depth, and none of these has a listed entry (`WorkspaceWalk.TruncatedForNothing`).
* A session can outlive its password: a sign-in that looks the password up before a reset and opens
  its session after it (`Provision.LateExample`). Those are the only ones (`Provision.OldSessionsEnd`).

## Model

| member | source | states |
|---|---|---|
| Zone.ResolveNaive | src/lib/automations/cron.ts:391-414 | A wall-clock reading of the year 100 or later (but for its first two days where the offset changes about then) resolves to the first instant at which the zone's clock has reached it, and is reported as a gap exactly when no instant shows it |
| Zone.FindTransition | src/lib/automations/cron.ts:404-413 | The binary search ends at a minute whose offset is no longer the old one while the minute before still has it |
| Zone.ShownByCandidate | src/lib/automations/cron.ts:392-399 | Some instant shows a reading exactly when one of the two probed offsets is confirmed at its own candidate |
| Zone.ValidCandidateIsFirst | src/lib/automations/cron.ts:398-401 | The smaller confirmed candidate is the first instant that reaches the reading |
| Zone.GapOpens | src/lib/automations/cron.ts:403-406 | With no confirmed candidate the offset grew, and the two candidates enclose the change with the old offset below and the new above |
| Zone.ResolveShown | src/lib/automations/cron.ts:384-401 | A reading that is shown resolves to the earliest instant showing it, so a repeated hour means its first pass |
| Zone.ResolveGap | src/lib/automations/cron.ts:387-413 | A reading inside a spring-forward gap resolves to the very instant of the jump |
| Zone.GapCoalesces | src/lib/automations/cron.ts:387-413 | All readings swallowed by one jump resolve to the same instant |
| Zone.ResolveMonotone | src/lib/automations/cron.ts:391-414 | Later readings never resolve earlier, which is what makes walking the wall clock a search in time |
| Calendar.DateOfDay | src/lib/automations/cron.ts:416-421 | Reading a day as a date gives a date that exists and counts back to that day |
| Calendar.DayOfDate | src/lib/automations/cron.ts:416-421 | Every existing date is the reading of the day it counts to |
| Calendar.WeekDayIsOfDate | src/lib/automations/cron.ts:416-421 | The weekday of a day number is the one Sakamoto's rule gives from year, month and date, for every year |
| Calendar.WeekGoesRound | src/lib/automations/cron.ts:416-421 | 1 January 1970 is a Thursday, and the weekdays follow one another in their round |
| Calendar.NextDate | src/lib/automations/cron.ts:453-456 | Asking `Date.UTC` for the date after a day gives the next day exactly outside the years 0 to 99, and never an earlier one |
| Calendar.TwoDigitYears | src/lib/automations/cron.ts:453-456 | `Date.UTC` takes the years 0 to 99 for 1900 to 1999 and every other as it is |
| Calendar.YearsShown | src/lib/automations/cron.ts:343-377 | A year of the era is shown as itself and the one `b` before it as `b` |
| Calendar.ReadBack | src/lib/automations/cron.ts:343-377 | A date shown without its era and put back together by `Date.UTC` is the day itself exactly from the year 100 on; an earlier day becomes one about two centuries later or more, and never one before the year 100 |
| CronSearch.NextRun | src/lib/automations/cron.ts:436-478 | From a reading of the year 100 or later the answer is the least instant after the start at which any matching minute resolves, and there is none only when no minute of the window resolves after the start; from an earlier one it is the same over the minutes from where the walk begins. In the first two days of that year this takes a zone that does not change its offset just then |
| CronSearch.FoundNext | src/lib/automations/cron.ts:468-473 | The first reading of the walk that matches and resolves after the start is the least such instant over all matching readings from the walk's beginning on |
| CronSearch.WalkIsRight | src/lib/automations/cron.ts:446-448 | Readings before the walk begins were reached by the start, so what the walk finds is the right answer from the year 100 on |
| CronSearch.SkipDay | src/lib/automations/cron.ts:453-456 | Skipping a day that does not match loses no run |
| CronSearch.SkipHour | src/lib/automations/cron.ts:459-462 | Skipping an hour that does not match loses no run |
| CronSearch.SkipMinute | src/lib/automations/cron.ts:463-472 | Leaving a minute that does not match or resolves no later than the start loses no run |
| CronSchedule.NextRunUnique | src/lib/automations/cron.ts:429-435 | From one start there is only one right answer |
| CronSchedule.NextRunMonotone | src/lib/automations/cron.ts:429-435 | Asking later never answers earlier |
| CronSchedule.RunsAreTheResolvedMinutes | src/lib/automations/cron.ts:436-473 | Asking again and again gives strictly increasing instants, exactly those at which some matching minute resolves |
| CronSchedule.ShownMinuteFiresOnce | src/lib/automations/cron.ts:387-401 | A matching minute the clock shows fires exactly once, at the first instant showing it, fall-back hour included |
| CronSchedule.GapFiresOnce | src/lib/automations/cron.ts:387-413 | All matching minutes inside one spring-forward gap share a single firing, at the jump |
| CronSchedule.NotYetIsAhead | src/lib/automations/cron.ts:446-471 | A reading resolves after the start exactly when the clock has not come to it by then, which a reading 28 hours past the beginning of the walk never has |
| CronSchedule.ResolvesAhead | src/lib/automations/cron.ts:446-471 | A day is enough when no change sets the clock back more than a day |
| CronSchedule.LeapDayInWindow | src/lib/automations/cron.ts:448-450 | A window of 1462 days that spans no skipped leap day holds a 29 February |
| CronSchedule.OrdinaryDay | src/lib/automations/cron.ts:448-450 | A usable schedule that admits a date other than 29 February matches a day from the third on, within two years |
| CronSchedule.LeapDaysMatch | src/lib/automations/cron.ts:416-427 | One that admits some date but no other matches every 29 February |
| CronSchedule.SearchAnswers | src/lib/automations/cron.ts:436-478 | For every usable schedule, zone and start: the walk finds a run exactly when the schedule admits a date other than 29 February, or admits that and a scheduled time of one is still to come in the window |
| CronSchedule.LeapDaySuffices | src/lib/automations/cron.ts:448-450 | A 29 February from the third day of the window to its last whole one is enough for that |
| CronSchedule.LeapDayNeeded | src/lib/automations/cron.ts:448-450 | One between the window's first and last days is needed |
| CronSchedule.LeapDayAhead | src/lib/automations/cron.ts:448-450 | And there is one wherever the window spans no skipped leap day and no change sets the clock back more than a day |
| CronSchedule.RightFromYear100 | src/lib/automations/cron.ts:343-448 | For every usable schedule that some date matches, what the walk finds is the right answer exactly when the start reads as the year 100 or later |
| CronSchedule.NoDateNoRun | src/lib/automations/cron.ts:432-434 | A schedule no real date matches, such as 30 February, has no run |
| CronSchedule.SkippedLeapDayMissed | src/lib/automations/cron.ts:448-478 | Across a skipped leap day the window is too short for the 29 February schedule, for every such year |
| CronFields.ParseElement | src/lib/automations/cron.ts:180-220 | An element that is accepted is a non-empty span within the range with a positive step |
| CronFields.AddSpan | src/lib/automations/cron.ts:222 | The value loop adds exactly the multiples of the step from start to end |
| CronFields.ParseField | src/lib/automations/cron.ts:168-227 | A field is accepted exactly when it is non-empty, uses `?` only where allowed and all its elements can be read; its values are then what the elements denote, non-empty and in range, and otherwise the first thing wrong is reported |
| CronFields.InRange | src/lib/automations/cron.ts:222-226 | A readable list always denotes something, so the check for an empty set of values never fires |
| CronFields.WildcardIsEverything | src/lib/automations/cron.ts:176-204 | A bare `*` or `?` denotes every value of the range |
| CronLine.ParseColumn | src/lib/automations/cron.ts:281-286 | A column is accepted exactly when its field is, and an error names the column and the first thing wrong with it |
| CronLine.ParseCronExpression | src/lib/automations/cron.ts:264-302 | A line is accepted exactly when it is a known alias or five acceptable fields; the sets hold what the columns denote with Sunday's two numbers folded, and are fit for the search; a refusal names what is wrong first, down to the element of the first bad column |
| CronLine.ComputeNextRunAt | src/lib/automations/cron.ts:436-478 | From text to instant: an unreadable line fails and says why; a readable one gets, from the year 100 on, the first instant after the start for a date and time its columns name, or none if none of the 1462 days ahead has one (in the first two days of that year with the same proviso); from an earlier start it gets what the walk finds |
| CronLine.AnsweredExactly | src/lib/automations/cron.ts:429-435 | A readable line gets a run exactly when some date other than 29 February matches its date columns, or that one alone does and a scheduled time of one is still to come in the window |
| CronLine.AnsweredIffDateExists | src/lib/automations/cron.ts:429-435 | So exactly when some real date matches, unless 29 February is the only one; then too, where the window spans no skipped leap day and no change sets the clock back more than a day |
| CronLine.DayRule | src/lib/automations/cron.ts:416-427 | The dates a line matches, by its columns' text and the date's own numbers: the month is named, one asterisk in the day columns leaves the choice to the other, two leave every day, and two restricted ones need only one to match |
| CronLine.LineRule | src/lib/automations/cron.ts:416-478 | And the minutes it fires at are those of such dates whose hour and minute are named |
| CronLine.AliasesMean | src/lib/automations/cron.ts:229-262 | What `@hourly`, `@daily`, `@midnight`, `@weekly`, `@monthly`, `@yearly` and `@annually` name, in any case, by date and time |
| CronLine.OtherAliases | src/lib/automations/cron.ts:229-262 | No other alias is accepted, and `@reboot` has its own error |
| CronLine.ColumnRange | src/lib/automations/cron.ts:100-125 | Each column takes the numbers of its range alone |
| CronLine.QuestionMarks | src/lib/automations/cron.ts:100-125 | And a question mark in the two day columns alone, where it leaves every day |
| Text.LowerIs | src/lib/automations/cron.ts:140-144 | Folding case makes small letters of capitals in their order and leaves small letters and digits |
| CronLine.NamesInOrder | src/lib/automations/cron.ts:63-87 | Months are named from one and days from Sunday at zero, in any case |
| CronLine.ElementRoundTrip | src/lib/automations/cron.ts:179-220 | Every way of writing an element (star, question mark where allowed, number with leading zeros, name in any case, range of these, each with or without a step) is read as the values it stands for |
| CronLine.ColumnRoundTrip | src/lib/automations/cron.ts:100-125 | In particular in every one of the five columns, with its range and its names |
| CronLine.ElementGrammar | src/lib/automations/cron.ts:179-220 | And nothing else is read: the accepted elements without white space are exactly these forms |
| CronLine.ListRoundTrip | src/lib/automations/cron.ts:168-227 | A field written as a list of numbers denotes those numbers and no others |
| CronLine.LineRoundTrip | src/lib/automations/cron.ts:264-302 | Every choice of five non-empty value sets can be written as a line that is accepted and means them |
| MentionMatch.IsSubsequence | src/lib/chat/mention-match.ts:57-61 | The scan says yes exactly when the query's characters appear in the text in order |
| MentionMatch.GreedyMatch | src/lib/chat/mention-match.ts:64-76 | The first-fit match is the leftmost alignment in every position, scored with flat gaps |
| MentionMatch.Worth | src/lib/chat/mention-match.ts:20-58 | A matched character is worth 26 at the start of the text or after a slash, 24 after another separator, 23 at a camel hump, 20 at the start of a number and 16 elsewhere |
| MentionMatch.ScoreIsSum | src/lib/chat/mention-match.ts:20-28 | A score is the sum of these and of the steps: five for an adjacent one, else two off and one more for each character skipped |
| MentionMatch.FlatScoreIsSum | src/lib/chat/mention-match.ts:63-76 | The greedy score likewise, with three off for any gap |
| MentionMatch.WordStartWins | src/lib/chat/mention-match.ts:11-13 | Of two alignments that differ in one position and whose steps come to the same, the one at the start of a part or word wins over one that is not |
| MentionMatch.OneCharacter | src/lib/chat/mention-match.ts:83-157 | A one-character query goes to the start of the text or of a part of it if it occurs there, else of a word, and scores accordingly |
| MentionMatch.ScoreLowerBound | src/lib/chat/mention-match.ts:31-33 | No alignment scores below what its span allows, the fact behind testing against half the sentinel |
| MentionMatch.FlatIsGenerous | src/lib/chat/mention-match.ts:63-76 | The greedy score of an alignment is never below its exact score |
| MentionAlign.GapIsExact | src/lib/chat/mention-match.ts:103-116 | The running maximum is the best predecessor at least two back with its affine gap charged, or empty when there is none |
| MentionAlign.ReachIsBest | src/lib/chat/mention-match.ts:123-134 | No alignment of the row before, adjacent or across a gap, beats the choice made for a cell |
| MentionAlign.ReachIsAttained | src/lib/chat/mention-match.ts:123-134 | And the cell its source link names attains it |
| MentionAlign.ReachIsLatest | src/lib/chat/mention-match.ts:107-134 | Of the cells that attain it, that is the last |
| MentionAlign.TableIsExact | src/lib/chat/mention-match.ts:96-138 | Every table entry is the best score of all alignments of that query prefix ending at that position, or the sentinel when there is none |
| MentionAlign.AdvanceGap | src/lib/chat/mention-match.ts:107-116 | One step of the running maximum keeps it equal to its recurrence |
| MentionAlign.FillCell | src/lib/chat/mention-match.ts:117-136 | Writing one cell leaves the two arrays right up to and including it |
| MentionAlign.FillTables | src/lib/chat/mention-match.ts:93-138 | The nested loops fill both arrays with the recurrence's scores and sources |
| MentionAlign.TraceBack | src/lib/chat/mention-match.ts:151-155 | Following the source links yields ascending positions that spell the query and attain the entry's score |
| MentionAlign.PickEnd | src/lib/chat/mention-match.ts:140-149 | The end chosen has the greatest entry of the last row |
| MentionAlign.LastRowIsBest | src/lib/chat/mention-match.ts:140-148 | No whole alignment beats the last row's entry where it ends |
| MentionAlign.TiesBroken | src/lib/chat/mention-match.ts:107-155 | Of equally good alignments the one taken ends first, and from the end on has each position as late as it can |
| MentionAlign.FuzzyMatch | src/lib/chat/mention-match.ts:83-157 | There is a match exactly when the folded query is a subsequence; up to 32 768 cells its score is the maximum over all alignments, its indices attain it and ties are broken as said; past that it is the leftmost alignment |
| AutomationRuns.CronIsLawful | src/lib/automations/cron.ts:429-435 | The cron search always answers later than asked and never earlier for a later start, which is all the engine needs of it |
| AutomationRuns.EnqueueForeverOk | src/lib/automations/engine.ts:429-438 | Queueing with a permanent key never makes a second job with it |
| AutomationRuns.RetryOk | src/lib/automations/automation-handler.server.ts:196-222 | A retry is queued once per failed job, with the next attempt number and behind it in the queue |
| AutomationRuns.SlotJobUnique | src/lib/automations/engine.ts:420-438 | A scheduled slot has at most one job ever |
| AutomationRuns.RetryUnique | src/lib/automations/automation-handler.server.ts:207-222 | A failed job has at most one retry ever, even when its failure is delivered again |
| AutomationRuns.ChainIsAPath | src/lib/automations/engine.ts:482-502 | The jobs of one slot form one path with attempts 1, 2, 3, whatever was re-delivered, lost or canceled |
| AutomationRuns.ChainReachesEnd | src/lib/automations/engine.ts:489-502 | Following a chain ends at a job that may still run or that leads no further, as its status and result say; the limit of ten is never what stops it |
| AutomationRuns.ChainReachesTrueEnd | src/lib/automations/engine.ts:489-502 | That is the newest attempt of the slot, the one no retry was queued for, exactly when every attempt before it completed with its retry in the result |
| AutomationRuns.LiveRetryMissed | src/lib/automations/engine.ts:444-465 | A slot whose newest attempt may still run is taken for dead exactly when the walk meets a job whose retry was queued and which ended without leading to it |
| AutomationRuns.BrokenSince | src/lib/jobs/jobs.server.ts:612-630 | A job comes to be such a one by exactly three steps, after its retry was queued: it is canceled, fails in the queue, or is delivered again and reported with another result; and it stays one |
| AutomationRuns.BrokenOverRuns | src/lib/jobs/jobs.server.ts:612-630 | So after any run there is no such job exactly when there was none before and no step was one of those |
| AutomationRuns.LiveRetrySeen | src/lib/automations/engine.ts:444-465 | And then, from a new system on, no slot whose newest attempt may still run is taken for dead |
| AutomationRuns.MissedRetryExample | src/lib/jobs/jobs.server.ts:612-630 | From one due automation: its job is to be retried and then canceled, or fails with its report lost, and the next tick moves the schedule on while the retry waits in the queue |
| AutomationRuns.ChainUnchanged | src/lib/automations/engine.ts:489-502 | New jobs do not change where a chain leads |
| AutomationRuns.ExamineOk | src/lib/automations/engine.ts:418-465 | Examining one due automation changes at most its own row and adds at most one job; it moves the next run exactly when the slot had a job, the chain of that job ends at one that may not run again, and there is a next run to move to |
| AutomationRuns.TickCovers | src/lib/automations/engine.ts:402-477 | After a tick every automation it examined is looked after in that sense: a live chain, a later next run, or none to be had |
| AutomationRuns.TickReports | src/lib/automations/engine.ts:402-477 | Every entry of the report says what became of its automation: a job was created exactly when the slot had none, the slot was skipped and the schedule moved exactly when the chain was dead and there is a next run, and the job named is the slot's or the one the dead chain ended with |
| AutomationRuns.WorkOk | src/lib/automations/automation-handler.server.ts:73-115 | An execution, however it ends, keeps queue and rows sound and moves the next run only for a scheduled run |
| AutomationRuns.HandleFailureOk | src/lib/automations/automation-handler.server.ts:178-263 | Retrying or giving up keeps the queue's keys unique and links each retry to the job that failed |
| AutomationRuns.GiveUpRowOk | src/lib/automations/automation-failure.server.ts:34-77 | Giving up keeps the row sound: at the limit it is switched off and marked, and the next run only moves forward, and only for the schedule |
| AutomationRuns.RunRowOk | src/lib/automations/engine.ts:93-210 | A run, blocked, paused, failed or successful, keeps the row sound and leaves the next run alone unless the schedule asked |
| AutomationRuns.SwitchOk | src/lib/automations/automation.server.ts:162-183 | Switching on or off keeps the invariant and moves the next run only when an off automation is switched on |
| AutomationRuns.StepOk | src/lib/automations/engine.ts:402-545 | Every step keeps the invariant, and moves a next run only forward and only if it is one that may: a scheduled run that ended, the switch, or a tick that found the slot's chain dead |
| AutomationRuns.ScheduleMoves | src/lib/automations/engine.ts:155-185 | Whenever a scheduled run has worked, was held up or is given up on and the schedule goes on, the next run is the schedule's next after now and the row no longer due; no other run moves it |
| AutomationRuns.RunDecides | src/lib/automations/engine.ts:93-210 | What a run leaves of its row: nothing changed when switched off or paused but for the schedule, the last run when over budget, and a clean record when it worked; no other row changes |
| AutomationRuns.FailureDecides | src/lib/automations/automation-failure.server.ts:34-77 | A failure that is a person's own or retried changes nothing; given up on, it counts, and the fifth in a row switches the row off and marks it |
| AutomationRuns.ExecutionQueues | src/lib/automations/automation-handler.server.ts:178-263 | A retry is queued for a failed attempt exactly once, one minute after the first and five after the second, and named in the reported result |
| AutomationRuns.AskedFor | src/lib/automations/automation.server.ts:68-89 | A person's own run or a monitor adds a first attempt due now, unless the same is queued or running or the row is off |
| AutomationRuns.SwitchDecides | src/lib/automations/automation.server.ts:162-183 | Switched on again, a row has the schedule's next run and a clean record, or stays off when there is none; switched off, it loses its mark alone |
| AutomationRuns.PageIs | src/lib/automations/engine.ts:403-408 | The due query's page holds due rows, at most twenty-five, and misses one only when full of no later ones |
| AutomationRuns.StartOk | src/lib/automations/automation.server.ts:91-130 | A new system satisfies the invariant |
| AutomationRuns.RunIsSafe | src/lib/automations/automation-failure.server.ts:50-68 | Over any run: switched on means fewer than five failures in a row, marked as disabled means switched off, and no next run ever moved backward |
| AutomationRuns.ScheduleUntouched | src/lib/automations/failure-policy.ts:39-59 | Manual and monitor runs, cancellations, switching off, and ticks that find no dead slot, in any number and order, leave an automation's next run exactly where it was |
| AutomationRuns.StreakIsCounted | src/lib/automations/automation-runs.server.ts:249-264 | The failure counter is the number of times a chain was given up on since the last success or switching on; manual failures, blocked and paused runs never touch it |
| AutomationRuns.StreakCountsChains | src/lib/automations/automation-failure.server.ts:115-131 | Without re-delivery those are different chains, so the counter counts slots and not attempts |
| AutomationEngine.Engine.EnqueueJob | src/lib/automations/engine.ts:429-438 | Queueing does what the queue model says for both dedupe scopes |
| AutomationEngine.Engine.SkipAutomationForPausedAgent | src/lib/automations/paused-agent.server.ts:49-89 | A paused agent's run moves the schedule of a scheduled run and nothing else of the row |
| AutomationEngine.Engine.HandleAutomationBudgetBlocked | src/lib/automations/engine.ts:308-323 | A blocked run stamps the last run and moves only a scheduled run's schedule |
| AutomationEngine.Engine.ResetAutomationFailureState | src/lib/automations/automation-runs.server.ts:249-264 | A success clears the streak and the mark and changes nothing else |
| AutomationEngine.Engine.RunAutomationById | src/lib/automations/engine.ts:93-210 | One run has the outcome and leaves the row the state machine says |
| AutomationEngine.Engine.RecordTerminalAutomationFailure | src/lib/automations/automation-failure.server.ts:34-92 | Giving up bumps the streak, rolls the schedule and disables as the state machine says |
| AutomationEngine.Engine.HandleAutomationRunFailure | src/lib/automations/automation-handler.server.ts:178-263 | A failure is retried, given up on or only reported, with the retry named in the result |
| AutomationEngine.Engine.ExecuteAutomationRunJob | src/lib/automations/automation-handler.server.ts:73-115 | The job handler is the state machine's execution step |
| AutomationEngine.Engine.FollowRetryChain | src/lib/automations/engine.ts:489-502 | The loop finds the chain's last job and whether it may still run |
| AutomationEngine.Engine.SkipScheduledSlot | src/lib/automations/engine.ts:512-545 | A slot is skipped exactly when the schedule has a next run and the row is still on that slot |
| AutomationEngine.Engine.ExamineAutomation | src/lib/automations/engine.ts:418-465 | One automation's turn in the tick, with what the report says of it: it says skipped only of a slot whose chain is dead |
| AutomationEngine.Engine.DueAutomations | src/lib/automations/engine.ts:403-408 | The query answers with the earliest due rows in order, at most twenty-five, and leaves one out only when the page is full |
| AutomationEngine.Engine.CheckAndRunAutomations | src/lib/automations/engine.ts:402-477 | The tick is the state machine's tick step on such a page, and its report is that step's, entry by entry |
| AutomationEngine.Engine.RunAutomationNow | src/lib/automations/automation.server.ts:68-89 | A manual run queues a job exactly when the automation exists |
| AutomationEngine.Engine.UpdateEnabled | src/lib/automations/automation.server.ts:162-183 | The switch is the state machine's, and a refused one changes nothing |
| TurnPlan.KeepLatest | src/lib/chat/turn-plan.ts:112-118 | The budget loop keeps the most turns from the end that fit, and always the last one |
| TurnPlan.KeptUnique | src/lib/chat/turn-plan.ts:112-118 | There is only one such number of turns |
| TurnPlan.FormatTurns | src/lib/chat/turn-plan.ts:102-121 | The text is exactly those turns, with the omission note exactly when some were left out, and nothing when no row says anything |
| TurnPlan.ExchangeReads | src/lib/chat/turn-plan.ts:102-121 | Two rows read as "User: " and "Assistant: " turns, clipped at four thousand characters, or as the second alone behind the omission note when both do not fit |
| TurnPlan.FindUnanswered | src/lib/chat/turn-plan.ts:146-155 | The scan returns the rows after the last reply |
| TurnPlan.CommandIsCommand | src/lib/chat/turn-plan.ts:176-182 | A slash command is a text that begins, after white space, with a slash and a letter |
| TurnPlan.PlanMeans | src/lib/chat/turn-plan.ts:187-247 | What a plan promises, by rows and positions: a session that need not be cut goes on; else it is cut behind the last reply if that belongs to it and has a tail, with exactly what was said since in front, or nothing before a slash command; else, and as the fallback, a fresh one has exactly what was said in the latest two hundred rows in front, in page order |
| SessionRuns.PageChanges | src/lib/chat/message-branch.server.ts:101-142 | What becomes of the page: messages and replies go to its end, an edit or cut drops all below its row, and nothing else changes what it reads |
| SessionRuns.PlanOk | src/lib/chat/turn-plan.ts:204-247 | What a plan puts in front of the prompt is on the page above the turn with its present text, and what it resumes shows only such rows, but for turns a cut dropped |
| SessionRuns.PlanClean | src/lib/chat/turn-plan.ts:204-247 | While no cut has been lost, what it resumes holds no such turn |
| SessionRuns.CutSparesChain | src/lib/chat/message-branch.server.ts:95-98 | A cut drops no turn of a session that ends above it |
| SessionRuns.CutSound | src/lib/chat/message-branch.server.ts:111-140 | Editing or cutting back drops exactly the turns of the rows it removes or changes, and keeps what is known of every turn |
| SessionRuns.CutClean | src/lib/chat/message-branch.server.ts:111-140 | And the mark it leaves makes the next turn cut the session |
| SessionRuns.SendSound | src/lib/chat/turn-plan.server.ts:69-85 | A new message keeps what is known of every turn |
| SessionRuns.RegenerateSound | src/lib/chat/turn-plan.server.ts:87-148 | So does a regenerate |
| SessionRuns.BeginSound | src/lib/chat/turn-plan.server.ts:150-176 | So does a turn that starts, whichever of its two writes are lost: it shows the row it answers and what its session held |
| SessionRuns.BeginClean | src/lib/chat/turn-plan.server.ts:150-176 | Unless it is the one kind of start that loses a cut, the session it leaves holds no dropped turn |
| SessionRuns.JoinClears | src/lib/chat/turn-plan.server.ts:155-175 | Recording a turn's join leaves no cut pending |
| SessionRuns.RefuseSound | src/lib/chat/turn-plan.server.ts:158-176 | So does a refused attempt, announced or not |
| SessionRuns.RefuseClean | src/lib/chat/turn-plan.server.ts:158-176 | And the session recorded at a refusal holds no dropped turn |
| SessionRuns.SaveReplySound | src/lib/chat/turn-plan.ts:196-206 | A saved reply's tail is a turn whose whole history lies above the reply |
| SessionRuns.StepSound | src/lib/chat/turn-plan.ts:187-203 | Every step of every conversation, those that lose a cut included, keeps this: a turn that no cut dropped shows its own row and rows above it as they now read |
| SessionRuns.EveryStart | src/lib/chat/turn-plan.ts:187-203 | So whenever an attempt starts, its session shows only the page exactly when the session it resumes holds no dropped turn |
| SessionRuns.ConversationsAreJudged | src/lib/chat/turn-plan.ts:187-203 | In every conversation whatsoever, all that starting turns' sessions can see comes from rows on the page above the turn with their present text exactly when no start resumed a session with a dropped turn in it |
| SessionRuns.StepOk | src/lib/chat/turn-plan.ts:187-203 | Every step that does not lose a cut keeps the resumable sessions free of dropped turns |
| SessionRuns.ConversationsSeeOnlyThePage | src/lib/chat/turn-plan.ts:187-203 | Hence in every conversation without such a step every start sees only the page, and a dropped turn is never seen again |
| SessionView.StepFull | src/lib/chat/turn-plan.ts:187-203 | Every step that loses nothing keeps all of the page in sight of the session and of every reply's tail |
| SessionView.StartSeesAll | src/lib/chat/turn-plan.ts:187-203 | So a turn that starts has everything said and taken up above it, as it now reads, in what it resumes or in front of its prompt |
| SessionView.ConversationsSeeAllOfThePage | src/lib/chat/turn-plan.ts:187-203 | In every conversation in which no write and no cut is lost, every start sees all of the page |
| SessionView.NewConversationIsFull | src/lib/chat/turn-plan.ts:187-203 | A new conversation has lost nothing |
| SessionView.FreshStartQuotes | src/lib/chat/turn-plan.ts:229-247 | Whatever was lost, a turn that starts afresh has all that was said in the latest two hundred rows in front |
| SessionRuns.StrandedMessage | src/lib/chat/turn-plan.server.ts:155-176 | After a step that loses a cut, by an announced refusal or by a session id that was not saved, and however the running turn then ends, the next message resumes the uncut session; it sees only the page exactly when no cut had dropped a turn of that |
| SessionRuns.CutReaches | src/lib/chat/message-branch.server.ts:111-140 | A cut drops turns of the current session exactly when that holds a turn of the cut row or of one below |
| SessionRuns.LostCut | src/lib/chat/turn-plan.server.ts:155-195 | So a lost cut can be told beforehand: after one cut or several and any events without a start, until a step loses the mark, the next message sees only the page exactly when the session had held no turn of the row they go back to or of one below |
| SessionRuns.EditExample | src/lib/chat/message-branch.server.ts:101-124 | From a new conversation, two exchanges and an edit of the second message reach the conversation the counterexamples start from |
| SessionRuns.StrandedExample | src/lib/chat/turn-plan.server.ts:155-176 | From a new conversation: there a regenerate is refused after announcing its session, its fallback never starts, and the next message sees the dropped turn |
| SessionRuns.LostSessionExample | src/lib/chat/turn-plan.server.ts:186-195 | From a new conversation: there the fallback starts and is answered, its join is saved and its session id is not, and the next message sees the dropped turn |
| SessionStore.Messages.LoadOwnUserMessage | src/lib/chat/message-branch.server.ts:50-64 | The row found is a user message with that id, and none is found only if there is none |
| SessionStore.Messages.CutTo | src/lib/chat/message-branch.server.ts:111-119 | The row is marked, every later row is gone and every earlier one as it was |
| SessionStore.Messages.EditUserMessage | src/lib/chat/message-branch.server.ts:101-124 | An edit replaces the text and cuts back, or is refused and changes nothing; it is not found exactly when there is no such user message |
| SessionStore.Messages.TruncateAfterMessage | src/lib/chat/message-branch.server.ts:127-142 | Cutting back without an edit, likewise: not found exactly when there is no such user message |
| SessionStore.Messages.RecordTurnJoin | src/lib/chat/turn-plan.server.ts:158-176 | The join is stamped on its row and exactly the pending cuts up to it are cleared |
| SessionStore.Messages.HasPendingCut | src/lib/chat/turn-plan.server.ts:37-44 | The query says whether any cut is pending |
| SessionStore.Messages.KeptHistory | src/lib/chat/turn-plan.server.ts:109-121 | Newest first up to the limit and then reversed is the latest rows in page order |
| SessionStore.Messages.PlanTheTurn | src/lib/chat/turn-plan.server.ts:58-148 | Planning fails exactly when a turn that must cut has no user row to answer, and otherwise gives a plan with the promise above, the one the state machine uses |
| SseFraming.BlocksAppend | src/lib/chat/sse-consumer.ts:104-106 | Splitting in pieces loses nothing: the blocks of a longer text are the finished blocks of its start and those of the leftover with the rest behind it |
| SseFraming.ParseSseEvent | src/lib/chat/sse-consumer.ts:125-152 | The line loop reads one event, and an id only when it is past the last one seen |
| SseFraming.FieldsMean | src/lib/chat/sse-consumer.ts:125-143 | A block's event and data are what follows the last line with that word, and its id is that of the last line with a number past the last one seen |
| SseFraming.NumbersAreRead | src/lib/chat/sse-consumer.ts:136-138 | Such a number is read with its sign up to the first character that is no digit |
| SseFraming.EncodeIsBlock | src/lib/runtime/sse-codec.ts:11-14 | What the server writes is one block and the empty line that ends it |
| SseFraming.FrameRoundTrip | src/lib/runtime/sse-codec.ts:11-14 | A frame read back is the event it was written for, with its id when that is new |
| SseConsumer.TakeChunk | src/lib/chat/sse-consumer.ts:104-116 | One read at a time yields what the whole stream would, whatever the chunks |
| SseConsumer.TakeClosing | src/lib/chat/sse-consumer.ts:86-103 | A connection that ends or breaks is worth what its resumed successor is, and an abort or the last attempt nothing more |
| SseConsumer.YieldEvents | src/lib/chat/sse-consumer.ts:108-116 | The signal is asked before each block; at the first yes the loop stops, having yielded exactly the events of the blocks before, and without one it has asked once for each block and yielded all |
| SseConsumer.FateMeans | src/lib/chat/sse-consumer.ts:62-103 | How a stream that is not stopped ends: each connection is resumed by the next until one is aborted, no attempt is left or the server does not serve; it fails exactly when that last one broke |
| SseConsumer.ConsumeSseStream | src/lib/chat/sse-consumer.ts:53-118 | The consumer yields a prefix of the whole stream's events, all of them when never stopped, and resumes at most as often as allowed, each time from the last number seen and never from an earlier one, and ends as the connections say; it asks before every event and every resume, and the first yes is the last it asks |
| SseResume.CutAnywhere | src/lib/chat/sse-consumer.ts:104-106 | However a stream of frames is cut off, the finished blocks are those of its first few frames |
| SseResume.DecodeFrames | src/lib/chat/sse-consumer.ts:108-116 | Frames whose ids rise are read back as exactly their events |
| SseResume.OneConnection | src/lib/chat/sse-consumer.ts:84-117 | One connection yields a start of the saved events it was asked for, and asking after the last of them gives the rest |
| SseResume.YieldsThePrefix | src/lib/chat/sse-consumer.ts:62-117 | Whatever breaks where, the saved events yielded are a prefix of the run's log, in order, none twice and none skipped; they are the whole log once any connection got to its end |
| SseResume.ConsumerSeesThePrefix | src/lib/chat/sse-consumer.ts:53-118 | The same for what the consumer has yielded whenever it stops |
| SseReplay.AskAgain | src/lib/runs/run-replay-stream.ts:77-83 | Asking for the rows after the last one forwarded continues what was forwarded without a gap |
| SseReplay.Forward | src/lib/runs/run-replay-stream.ts:78-83 | Events are sent in order until the client leaves, and the place is kept either way |
| SseReplay.Poll | src/lib/runs/run-replay-stream.ts:104 | One query and its forwarding leave the sent frames equal to the log's rows after the start as far as the query saw |
| SseReplay.Replay | src/lib/runs/run-replay-stream.ts:58-117 | Whatever fails and whenever the client leaves, what was sent is a start of the saved rows after `since`; a stream closed in the client's presence has sent them all, ending in a notice if the run was over before; rows that cannot be read leave a notice of failure alone |
| SseReplay.ReplayIsDelivered | src/routes/chat/[id]/stream/resume/+server.ts:50-69 | Whatever part of a replay arrives is what the consumer's protocol counts on |
| ShellCard.KeepIs | src/lib/engine/tool-result-details.ts:250-266 | At most the last sixteen thousand characters are kept |
| ShellCard.KeepAppend | src/lib/engine/tool-result-details.ts:250-266 | Cutting a stream to its tail before adding to it changes nothing that is kept |
| ShellCard.ApplyShellOutput | src/lib/chat/streaming-blocks.ts:438-470 | A frame changes at most the shell cards with its id |
| ShellCard.ApplyShellTaskDone | src/lib/chat/streaming-blocks.ts:477-502 | So does the frame that settles a command |
| ShellCard.PlacelessOutput | src/lib/chat/streaming-blocks.ts:419-470 | Output that does not say where it stands goes behind what is shown or, on a reset, in its place |
| ShellCard.DoneIsShown | src/lib/chat/streaming-blocks.ts:477-502 | The settling frame puts its status on the card, and its code and output where it has them; one without a final status does nothing |
| ShellCard.SlicesMerge | src/lib/chat/streaming-blocks.ts:419-470 | For slices of one stream in any order, with repeats and overlaps, the card stands at the farthest end seen, shows the capped tail up to there unless a slice left a hole (and from that slice on in any case), and is marked as a tail exactly when it was before, a hole was left, more came than is kept or a frame said so |
| ShellCard.OrderDoesNotMatter | src/lib/chat/streaming-blocks.ts:419-470 | Without a hole two orders of the same slices end in the same text and position |
| ShellCard.AgainIsNothing | src/lib/chat/streaming-blocks.ts:430-455 | A frame that was already applied changes nothing when it comes again |
| ShellCard.HoleHeals | src/lib/chat/streaming-blocks.ts:432-470 | After a hole, as much new output as is kept makes the card show the true tail again |
| ShellCard.ResetStartsOver | src/lib/chat/streaming-blocks.ts:428-470 | A reset makes the card show the new output alone, from wherever it had been |
| ShellCard.SettledStays | src/lib/chat/streaming-blocks.ts:445-446 | Once settled, a card keeps its final output whatever still arrives |
| ShellFollow.TrackedShell.ApplyChunk | src/lib/engine/background-shells.server.ts:184-199 | A read grows the saved output and the unsaved part and sends the frame the model says |
| ShellFollow.TrackedShell.SaveCheckpoint | src/lib/engine/background-shells.server.ts:201-210 | A checkpoint goes out exactly when something is unsaved and one is due |
| ShellFollow.TrackedShell.Settle | src/lib/engine/background-shells.server.ts:234-247 | Settling sends the final output once |
| ShellFollow.CatchesUp | src/lib/engine/background-shells.server.ts:51-72 | A frame that runs to the end of the output and starts no later than the card stands puts the card in step |
| ShellFollow.StepOk | src/lib/engine/background-shells.server.ts:184-247 | Every read, checkpoint, settlement or lost connection keeps engine and card related |
| ShellFollow.EventsTakeEffect | src/lib/engine/background-shells.server.ts:184-247 | A read grows the output and shows at once to a page that hears it; a poll saves what is unsaved unless the last was too recent; the end is on the card |
| ShellFollow.CardFollowsCommand | src/lib/engine/background-shells.server.ts:7-18 | The card equals the saved block while everything is heard, whenever nothing is waiting to be saved, and at the end; in between it shows the capped tail of a prefix of real output, and is marked as a tail only if the block is or a reset is still to be heard of |
| WorkspaceWalk.SortSorts | src/lib/chat-console/workspace-files.server.ts:100 | A directory's entries are kept and put in order of name |
| WorkspaceWalk.BeforeMeans | src/lib/chat-console/workspace-files.server.ts:100 | Names are compared where they first differ, a beginning before what it begins |
| WorkspaceWalk.ListDirectory | src/lib/chat-console/workspace-files.server.ts:101-121 | One directory's loop lists exactly its kept entries and puts its kept folders in line, or stops at the entry limit because there was one more |
| WorkspaceWalk.ListWorkspaceFiles | src/lib/chat-console/workspace-files.server.ts:73-125 | For every directory at which time may run out: the entries are those of the directories seen by then, in breadth-first order and up to the limit, and "truncated" means exactly that there were more, a directory was not seen, or a folder lies at the last depth; so they are a prefix of the complete listing, and as long as the limit allows when time suffices |
| WorkspaceWalk.ListingIsReachable | src/lib/chat-console/workspace-files.server.ts:80-121 | The complete listing holds exactly the kept entries of the directories that can be reached within the depth |
| WorkspaceWalk.ListingAsPaths | src/lib/chat-console/workspace-files.server.ts:101-121 | As paths: names joined by slashes, each folder in the one before and none of version control, dependencies, build output or caches, to a printable file or, with a slash behind, folder |
| WorkspaceWalk.NotTruncatedIsAll | src/lib/chat-console/workspace-files.server.ts:57-58 | A listing that is not called truncated is the whole tree, however deep one looks |
| WorkspaceWalk.TruncatedForNothing | src/lib/chat-console/workspace-files.server.ts:112-121 | A listing called so, for whichever reason, is the whole tree all the same exactly when it fits, a directory was not seen in time or a folder lies at the last depth, and none of these has a listed entry |
| WorkspaceWalk.EmptyFolderExample | src/lib/chat-console/workspace-files.server.ts:112-121 | A root with one empty folder, looked at to a depth of one, is such a listing |
| WorkspaceWalk.LateFolderExample | src/lib/chat-console/workspace-files.server.ts:83-87 | So is the same root at the usual depth when time is up before the folder |
| FragmentExpand.ImportLines | src/lib/agents/fragment-expand.ts:17 | An import line is `@import`, white space and a name, with white space around; it is recognised, and nothing else is |
| FragmentExpand.Expand | src/lib/agents/fragment-expand.ts:41-75 | The line loop computes the expansion, for any lookup, and ends even when imports form a cycle |
| FragmentExpand.OneImport | src/lib/agents/fragment-expand.ts:47-75 | A text that is one import becomes the expansion of the text named, or the marker that says why not |
| FragmentExpand.ExpandFragments | src/lib/agents/fragment-expand.ts:33-40 | The expansion starts with no text open |
| FragmentExpand.OutputHasNoImports | src/lib/agents/fragment-expand.ts:32-75 | No line of the result is an import line |
| FragmentExpand.FullUnfolding | src/lib/agents/fragment-expand.ts:28-75 | When all imports are there and end within some number of steps, every depth limit from that number on gives the full unfolding |
| FragmentExpand.CutIsMarked | src/lib/agents/fragment-expand.ts:17-31 | Otherwise the result has a marker line that says so |
| PromptSlots.UsableMeans | src/lib/context/slots.server.ts:67-75 | The usable slots are those with more than white space, in the list's order |
| PromptSlots.OrderIsComplete | src/lib/context/slots.server.ts:98-100 | The order holds every slot once, the less important first and equals in list order |
| PromptSlots.TruncateSlots | src/lib/context/slots.server.ts:97-110 | The loop is the first pass: in that order, each slot that may be cut is cut to its own cap or to the room the others leave, until everything fits |
| PromptSlots.PassGoesOn | src/lib/context/slots.server.ts:97-110 | The first pass comes to one slot of the order after another, those it cannot cut included, and stops where everything fits or the order ends; it reports those it cut |
| PromptSlots.CutText | src/lib/context/slots.server.ts:60-107 | What a slot is cut to: nothing, or a beginning of at most four characters a token without white space at its end, and the note; and only if that is shorter |
| PromptSlots.FirstPassCuts | src/lib/context/slots.server.ts:97-110 | The first pass drops nothing, only ever makes a slot shorter, reports each one it cut, and touches nothing when everything fits |
| PromptSlots.DropSlots | src/lib/context/slots.server.ts:112-119 | The second pass drops the shortest prefix of the order after which the rest fits |
| PromptSlots.AssembleSystemPrompt | src/lib/context/slots.server.ts:67-142 | Every usable slot is either in, in list order, or dropped; the estimates of those kept add up to the budget at most, after the first pass, and no shorter prefix of the order would do |
| PromptSlots.FitsIsUntouched | src/lib/context/slots.server.ts:90-120 | Slots that fit the budget are all in and whole |
| PromptSlots.CutFits | src/lib/context/slots.server.ts:101-109 | In any list, cutting one slot makes everything fit exactly when the slot may be cut and what it is cut to, the note included, fits the room the others leave |
| PromptSlots.NoteFits | src/lib/context/slots.server.ts:60-105 | For a slot without a cap of its own: exactly when no room is left or needed, or the text up to the room, trimmed, and the note fit it together |
| PromptSlots.LoneSlot | src/lib/context/slots.server.ts:60-120 | So a slot alone that is to be cut to the budget is kept exactly when it fits whole or the cut falls on enough white space for the note; otherwise it is dropped and the prompt is empty |
| PromptSlots.DroppedForItsNote | src/lib/context/slots.server.ts:60-120 | Thirty letters under a budget of two tokens are dropped |
| PromptSlots.PromptFits | src/lib/context/slots.server.ts:133-139 | The assembled prompt is within the budget by its own estimate exactly when the lengths of the kept parts and two characters for each separator are; it passes the budget by at most half a token for each part |
| PromptSlots.SeparatorsPassTheBudget | src/lib/context/slots.server.ts:58-139 | It can: two slots of one token each, under a budget of two, are assembled to a prompt of three |
| PromptSlots.ResultExists | src/lib/context/slots.server.ts:67-142 | Every list and budget has a result the passes explain, so those are not about nothing |
| Provision.Users.ProvisionOwner | src/lib/auth/provision.server.ts:65-118 | One uninterrupted call has the outcome and leaves the table the statement-by-statement machine says |
| Provision.ActOk | src/lib/auth/provision.server.ts:52-64 | Every statement of every caller keeps the invariant of the interleaving |
| Provision.Acceptable | src/lib/auth/provision.server.ts:78-87 | A call is acceptable exactly with a password of at least eight characters and no username or a plain one of three to 32 |
| Provision.ExactlyOneCreates | src/lib/auth/provision.server.ts:39-64 | However many calls interleave, exactly one creates the owner if there was none and some call was acceptable, and none otherwise; every call that was not refused reports the one row's id, and none reports that no owner could be made |
| Provision.OwnersNames | src/lib/auth/provision.server.ts:83-98 | However the calls interleave, an owner there was keeps its names, and a new one has what its creator gave, else what the row had, else the defaults |
| Provision.PasswordIsTheCreators | src/lib/auth/provision.server.ts:42-45 | Without overwriting, the stored password is the creator's, and an existing owner is left alone |
| Provision.StoredPassword | src/lib/auth/provision.server.ts:31-37 | With overwriting, the stored password is still one that a call reports it set |
| Provision.SessionsEnd | src/lib/auth/provision.server.ts:47-50 | While calls, sign-ins and sign-outs interleave: once a password is set and no call is still to end sessions, the open sessions are those of the stored password, but for sign-ins that looked up an earlier one and opened their session after the sessions were ended |
| Provision.OldSessionsEnd | src/lib/auth/auth.remote.ts:36-53 | So they are all of the stored password exactly when no such late one is open |
| Provision.LateExample | src/lib/auth/auth.remote.ts:36-53 | And one can be: a sign-in around a whole reset |
| Provision.CallsReturn | src/lib/auth/provision.server.ts:65-118 | Every caller is done after five statements of its own, whatever the others do |

## Left out

- Zone data: the platform's time-zone tables and formatter become the offset function; checks that a zone name or a start date is valid, and the range of JavaScript dates, are not modelled.
- CronSearch.NextRun: nothing is said of a walk that begins in the first two days of the year 100 in a zone whose offset changes just then, where the resolver's probes reach back into the year before; the formatter is taken to show years of the proleptic calendar without their era.
- CronLine.ComputeNextRunAt: the same.
- CronFields.ParseValue: names are looked up among the field's own names only; JavaScript would also find inherited property names such as `constructor`.
- CronFields.ParseField: errors carry the kind of fault and not the wording of the message.
- MentionAlign.FuzzyMatch: case is folded character by character, so folds that change a text's length are not modelled; ranking whole paths and highlighting are left out as easy.
- AutomationWorld.EnqueueForever: the queue is a list of jobs with keys, its four active statuses are one, and racing inserts of one key are atomic; retention, leases and priorities are not modelled.
- AutomationRuns.StepOk: each handler run is atomic apart from the worker's report being lost; workers that write after their job was declared dead, edits of the schedule itself, deletion of an automation and database writes that fail while a run goes on are not modelled, and a next run is always present.
- Ledger rows, review items, notifications, metrics and costs have no bearing on the rows that are modelled.
- SessionRuns.StepSound: the SDK's answers (refusing, announcing a session, starting) are events; a start appends its prompt to the session in one step; partial replies, compaction, attachments and system rows are not modelled.
- SessionRuns.ConversationsSeeOnlyThePage: the text around quoted rows and their trimming to the preamble's budget are in `TurnPlan`, not in the session's view of a row.
- SessionView.ConversationsSeeAllOfThePage: a message whose turn never started is not taken up, and a session that goes on does not show it; past two hundred rows, and for a slash command behind a cut, the program leaves rows out on purpose.
- SessionStore.Messages.PrepareBranch: restoring files is a parameter with three answers.
- SseConsumer.ConsumeSseStream: bytes are characters already, JSON parsing is a parameter, and the telemetry callbacks are not modelled.
- SseResume.YieldsThePrefix: a connection is assumed to carry saved frames in the order of their numbers, which the server's replay is shown to do and a live stream does when it emits one frame at a time.
- SseReplay.Replay: time is the sequence of the stream's own looks at the database and the client, and the client leaves at the latest at some unknown moment.
- ShellFollow.CardFollowsCommand: reading the output file, settlements that arrive before their call's result, and the bound on the last read are not modelled; every read brings text, and the first one or one that skipped starts over, as the reader guarantees.
- WorkspaceWalk.ListWorkspaceFiles: what reading a directory finds is a parameter, including finding that it now leads outside the root; the cache of listings is not modelled.
- PromptSlots.AssembleSystemPrompt: priorities and budgets are whole numbers, and overrides of slots are not modelled.
- Provision.Users.ProvisionOwner: hashing and checking a password are parameters and statements do not fail; the boot step around it is not modelled.
- Provision.OldSessionsEnd: an account without a row has no sessions, as the tables' reference between them has it; sessions that expire are sign-outs.
- User interface, remote functions, authentication cookies, exports, usage figures, search text and the desktop shell would only add easy members.
