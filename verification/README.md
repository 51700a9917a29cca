# A verified model of NightOwl's stateful core

NightOwl is an incident knowledge base with alert handling, on-call rosters and escalation. This
project models the five parts of it whose behaviour depends on state carried from step to step, and
proves what they promise over all inputs and all runs. `dafny verify dfyconfig.toml` checks it.

- **Roster scheduler** (`Roster*.dfy`). A greedy generator assigns a primary and a secondary to
  consecutive weeks, steps over locked weeks and writes the others to the schedule table.
  `RosterModel` says what one run of it makes of a table, and `RosterService` proves the loops
  against that. Over it: runs of consecutive weeks are capped and primary duty stays balanced
  (`RosterFairness`), and so do secondary and total duty (`RosterLoad`, `RosterTotalDuty`); on a
  fresh roster the generator is a plain rotation (`RosterRotation`); regenerating later leaves
  published weeks alone (`RosterStability`), and exactly when it does (`RosterWindows`, from
  `RosterLaterRuns`, `RosterReshuffles` and `RosterPairs`); and every run of edits, member changes
  and changes of settings keeps the table sound (`RosterRuns`), manual edits standing until they are
  undone (`RosterOperations`).
- **On-call resolution and coverage** (`ActiveHours.dfy`, `Coverage.dfy`, `ReportContents.dfy`). The
  coverage report reads prefetched rows instead of asking the database for each slot, and reports the
  gaps.
- **Escalation engine** (`Escalation.dfy`, `EscalationDryRun.dfy`). A tier machine for each alert,
  driven by evaluations at arbitrary times whose store calls may fail; where it can get to under any
  policy, and the dry run that predicts it.
- **Incident merge** (`Incidents.dfy`, `IncidentOutcomes.dfy`). A forest of merged incidents, archived
  ones pointing at themselves, with alerts following the merges.
- **Alert grouping** (`GroupKeys.dfy`, `KeySeparation.dfy`, `AlertGrouping.dfy`,
  `GroupingOutcomes.dfy`). Groups found by a canonical key, exactly when that key tells labels apart,
  alerts grouped as they arrive or later by a backfill, and counters kept on the way.
- **Audit writer** (`AuditWriter.dfy`, `AuditOutcomes.dfy`). A bounded queue and a batch as a
  transition system with two ways out.

In the three `Outcomes` modules, `RosterOperations` and `ReportContents` what the operations do is
said of the fields, rows and entries themselves, without the functions that specify them.
`Wrappers` and `Arithmetic` are helpers.

## How the code is modelled

- Objects whose rows or fields are updated in place are classes (`Roster`, `Alert`,
  `IncidentService`, `GroupingService`, `Writer`). Each method is proved against a function on the
  state before it, and the properties are lemmas about those functions.
- A roster's tables are one `Roster` object, an incident or grouping database one service object. A
  store call is atomic and succeeds, except where a failure is a parameter or an outcome: the
  table's constraints, missing rows, the escalation engine's lookup and writes, the reassignment of
  alerts in a merge, and the schemas and rows of an audit flush.
- Methods require only what the tables guarantee (a member or an id occurs once), what the calling
  code has just checked, or what the language demands (no logging after `Close`).
- Days are day numbers and instants are nanoseconds, both in UTC. The week of an instant is found by
  its day number. Zones are fixed offsets.
- Members are listed in joining order; joining times are taken to differ.
- `AssignWeek`, `PutInGroup`, `CoverageOfSlot`, `PrefetchAll`, `GroupBySchema` and `WriteRows` are
  loop bodies or inner loops of the source given a name.
- The audit loop never ends, so `Writer.Step` is one pass through its select. The clock, the
  callers and the choice among ready cases are the `Action` of that pass.
- The alerts pending escalation are those that fire and have a policy
  (`sqlc/queries/alerts/alerts.sql:50-54`).
- A group's key is the text that is hashed. Strings are compared as byte sequences, and whether a
  pattern matches is a function parameter.

## Where the code and its documentation part

The model follows the code.

- `docs/08-roster-v2.md:169` counts locked weeks towards fairness. The generator counts weeks before
  the window only (`pkg/roster/scheduler.go:32-41`), and a locked week inside it moves the
  consecutive counter alone (`pkg/roster/scheduler.go:82-94`). So a later run, which does count that
  week, may reassign weeks already published: `RosterWindows.LockedWeekReshuffles` is an instance.
  `RosterWindows.WindowStableIff` says for every roster which irregular days make that possible. It
  speaks of all tables with those days: a particular table may be left alone all the same, such as
  one whose locked weeks name only people who are not members.
- `docs/08-roster-v2.md:128` allows weeks nobody is assigned to. The table turns them away, because
  two nulls are not distinct (`migrations/tenant/000016_roster_schedule_v2.up.sql:40`).
- `handoff_day` is meant to be 0 to 6 but is not validated. `RosterModel.AlignIsLatestHandoffIff`
  gives the values for which alignment finds the latest such day. Only 7, which acts as Sunday,
  works besides.
- An edited week may start on any date (`pkg/roster/handler.go:326`), so the schedule can leave its
  weekly grid. `RosterRuns.WindowTiledIff` says what that costs.
- `Close` is said to wait until all entries are flushed (`internal/audit/audit.go:72`). An entry
  logged after a cancelled loop has left is never flushed: `AuditWriter.LateEntryIsStranded`,
  `AuditWriter.AllFlushedIff`.
- The dry run lists every tier at its cumulative time. The engine never stops at a tier that is not
  above zero and above all those listed before it, since neither order nor sign is validated:
  `EscalationDryRun.TierRecordedIff` and `EscalationDryRun.FullyEscalatedIff` say which tiers and
  which policies, for policies that do not repeat. It also falls behind when two tiers are due at one
  evaluation: `EscalationDryRun.EngineMatchesDryRunIff`.
- Group keys are meant to stand for the group-by labels. They do for exactly the group-by lists of
  `AlertGrouping.GroupsByLabelsIff`, and only while values hold no line break:
  `KeySeparation.AnyValuesInjectiveIff`.
- A merge is said to reassign all alerts (`pkg/incident/service.go:233`). If that fails the merge goes
  through with a warning, and the alerts stay on the merged incident for good:
  `Incidents.AlertsPointAtRootsIff`.
- The counter's CASE expression agrees with `maxSeverityOf` except for an unknown current severity
  and an info alert, which no group reaches: `AlertGrouping.CaseIsMaxSeverityIff`.

## Model

| member | source | states |
|---|---|---|
| RosterModel.AlignIsLatestHandoffIff | pkg/roster/scheduler.go:128-139 | Alignment goes back to the latest handoff day on or before every date if and only if the unvalidated setting is 0 to 7. |
| RosterModel.AlignMonotone | pkg/roster/scheduler.go:128-139 | A later date never aligns earlier, two aligned dates are whole weeks apart, and they fall on the handoff day, for any setting. |
| RosterModel.WithoutMembers | pkg/roster/scheduler.go:149-153 | Leaving out one member leaves exactly the others. |
| RosterModel.FirstLeastIsLeast | pkg/roster/scheduler.go:164-173 | The choice is a candidate with the lowest score, and everyone listed before has a higher one. |
| RosterModel.FirstLeastAt | pkg/roster/scheduler.go:164-173 | Conversely, whoever ties or beats everyone after and beats everyone before is chosen. |
| RosterModel.DutiesAreLeastServed | pkg/roster/scheduler.go:96-101 | With members there is always a primary, who is least served among those below the cap and is not the last primary at a positive cap that his run has reached if there is someone else; a secondary exists exactly with two members, differs from the primary and has the least total duty of the others. |
| RosterModel.PlannedRowStored | pkg/roster/scheduler.go:77-125 | After a run every week of the window holds its planned row. |
| RosterModel.OutsideWindowUntouched | pkg/roster/scheduler.go:77-125 | A run creates, changes or removes nothing outside its window. |
| RosterModel.RegeneratedKeys | pkg/roster/scheduler.go:77-125 | The stored weeks after a run are those before it and those of the window. |
| RosterModel.LockedWeeksSurvive | pkg/roster/scheduler.go:82-94 | A locked week survives a run as it is, wherever it lies, and a run changes no week's lock. |
| RosterModel.TrackCountKeys | pkg/roster/scheduler.go:34-41 | The counts are of the active members and of nobody else, through all weeks of a run. |
| RosterService.PickPrimary | pkg/roster/scheduler.go:143-176 | The two loops give the earliest least-served member below the cap, or of all members when the cap leaves nobody. |
| RosterService.PickSecondary | pkg/roster/scheduler.go:180-196 | The loop gives the earliest member with the lowest total other than the primary. |
| RosterService.Roster.UpsertScheduleWeek | pkg/roster/store.go:448-507 | An equal pair of duty holders, also two empty ones, and a week that ends before it begins are turned away without a change; otherwise the row is stored with the week end it already had, and every other row stays. |
| RosterService.Roster.LookBack | pkg/roster/scheduler.go:54-74 | The look-back seeds the last primary and the consecutive counter of the plan. |
| RosterService.Roster.AssignWeek | pkg/roster/scheduler.go:96-122 | One unlocked turn stores the chosen pair and moves counts and tracker by exactly that choice; the table never rejects it. |
| RosterService.Roster.GenerateSchedule | pkg/roster/scheduler.go:13-126 | The generator leaves exactly the planned table and returns the stored row of each week of the window in order, locked ones included; without active members it returns nothing and touches nothing. |
| RosterService.Roster.UpdateScheduleWeek | pkg/roster/service.go:122-127 | An edit stores the given pair and notes locked, keeping the end of a week that was there, and no other row changes; or it is rejected with the error of the first check that fails. |
| RosterService.Roster.UnlockScheduleWeek | pkg/roster/store.go:509-520 | Unlocking changes the lock of that one row, and reports a missing row. |
| RosterService.Roster.RegenerateFuture | pkg/roster/service.go:103-110 | Regenerates from today for the configured number of weeks. |
| RosterService.Roster.UpdateRoster | pkg/roster/store.go:108-144 | Replaces the settings, a cap that is not positive by 2 and a horizon by 12, and leaves members and schedule as they are. |
| RosterService.Roster.AddMember | pkg/roster/service.go:68-80 | Joins the member, or brings the member back without a duplicate and in the old place, regenerates with the new list and returns the active row. |
| RosterService.Roster.SetMemberActive | pkg/roster/service.go:92-110 | Switches the member and regenerates with the new list. |
| RosterService.Roster.DeactivateMember | pkg/roster/service.go:82-90 | Switches the member off and regenerates without him. |
| RosterService.TopUp | pkg/roster/worker.go:48-62 | One pass of the worker regenerates each active roster of the tenant and leaves the others alone. |
| RosterService.NextTurn | pkg/roster/scheduler.go:77-123 | The table after i + 1 weeks is the table after i weeks with the one upsert of that turn, or unchanged when the week is locked. |
| RosterRuns.ActiveMembersAre | pkg/roster/store.go:264-290 | The listed members are exactly those whose row is active. |
| RosterRuns.ActiveMembersDistinct | pkg/roster/store.go:264-295 | No member is listed twice. |
| RosterRuns.GeneratedWeeksUseMembers | pkg/roster/scheduler.go:96-104 | A generated week names two different active members, or the only one alone. |
| RosterRuns.ApplyKeepsValid | pkg/roster/service.go:43-131 | Every operation, a change of settings too, keeps each row at seven days with two different duty holders, each member once, and cap and horizon at least one. |
| RosterRuns.EveryRunKeepsValid | pkg/roster/service.go:43-131 | So does every run of generating, editing, unlocking, member changes and changes of settings. |
| RosterRuns.SwitchedOffMemberIsReplaced | pkg/roster/service.go:82-110 | A member switched off holds no unlocked week of the regenerated window if an active member remains; otherwise the schedule is unchanged. |
| RosterRuns.WindowTiledIff | pkg/roster/scheduler.go:76-108 | After generating, every day of the window is covered exactly once if and only if no stored week that touches the window starts off its weekly grid. |
| RosterFairness.SeedCountsTrailingRun | pkg/roster/scheduler.go:58-74 | The seeded counter is the length of the stored run just before the window, up to the cap. |
| RosterFairness.TrackerSeesRuns | pkg/roster/scheduler.go:54-119 | At every week of a run the tracker knows any run of stored weeks reaching it, up to the cap, through history and locked weeks. |
| RosterFairness.NoRunExceedsCap | pkg/roster/scheduler.go:143-161 | With two or more members no unlocked week ends a run of more than the cap of stored weeks with one primary, wherever the run began. |
| RosterFairness.LoneMemberTakesEveryWeek | pkg/roster/scheduler.go:163-173 | A lone member is primary of every unlocked week, without a secondary, so there the cap gives way. |
| RosterFairness.SpreadStep | pkg/roster/scheduler.go:96-119 | A week widens the spread of the counts by at most one, and only past a member the cap holds back. |
| RosterFairness.SpreadBounded | pkg/roster/scheduler.go:77-123 | From any counts of spread s0 and any look-back, the spread after any number of weeks is at most max(s0, 1) + 1 plus the locked weeks met. |
| RosterFairness.PickIsLeastUnlessHeldBack | pkg/roster/scheduler.go:149-161 | The primary is the least served of all members unless the cap blocks the one member strictly behind. |
| RosterFairness.StaysBalancedIff | pkg/roster/scheduler.go:77-123 | Counts within one of each other stay so for all weeks, with nothing locked, if and only if the cap does not at the outset block a member strictly behind all others. |
| RosterLoad.StepKeepsNobodyFarBehind | pkg/roster/scheduler.go:96-122 | Whoever is behind all others in total duty gets a duty that week, so the distance to the next does not grow. |
| RosterLoad.StepKeepsSecondarySpread | pkg/roster/scheduler.go:180-196 | A week keeps the spread of secondary weeks within the bound on primary weeks plus that distance. |
| RosterLoad.SecondarySpreadBounded | pkg/roster/scheduler.go:77-123 | From any counts, after any number of weeks the secondary weeks of two members differ by at most the bound on primary weeks plus max(l0, 1), and nobody is further than max(l0, 1) behind all others. |
| RosterTotalDuty.OneFarKept | pkg/roster/scheduler.go:149-161 | For each member at most one other is at the full bound of primary weeks ahead. |
| RosterTotalDuty.PickedStaysNear | pkg/roster/scheduler.go:96-122 | A member just made primary has at most max(l0, 1) plus the bound on primary weeks more total duty than any other: since he was last secondary every week gave a duty to somebody with less. |
| RosterTotalDuty.LoadSpreadBounded | pkg/roster/scheduler.go:77-123 | From any counts of primary spread s0 and total spread l0 and any look-back, after any number of weeks the totals of primary and secondary differ by at most max(l0, 1) + max(s0, 1) + 1 plus the locked weeks met. |
| RosterTotalDuty.StoredLoadStaysBalanced | pkg/roster/scheduler.go:32-123 | The duty weeks stored for any two members differ by at most max(l0, 1) + max(s0, 1) + 1 up to any week of a clean window. |
| RosterRotation.OneTurnEach | pkg/roster/scheduler.go:77-123 | Among any n turns in a row exactly one falls to each of n members. |
| RosterRotation.RotationPrimary | pkg/roster/scheduler.go:143-176 | In rotation, the greedy primary is the member whose turn it is, for every cap. |
| RosterRotation.RotationSecondary | pkg/roster/scheduler.go:180-196 | In rotation, the greedy secondary is the next member. |
| RosterRotation.GreedyIsRoundRobin | pkg/roster/scheduler.go:96-122 | On a fresh roster of n members week i goes to member i mod n with member i + 1 mod n as secondary. |
| RosterRotation.EachServesOnce | pkg/roster/scheduler.go:96-122 | There, in any n weeks in a row, each member has each duty in exactly one week. |
| RosterStability.AlikeDecideAlike | pkg/roster/scheduler.go:151-161 | Beyond the cap the length of a run no longer matters to any choice. |
| RosterStability.AlikeStayAlike | pkg/roster/scheduler.go:77-123 | Trackers that differ only there stay so over a week of either kind. |
| RosterStability.CleanPrefixReflects | pkg/roster/scheduler.go:32-74 | Over weeks without locks and off-grid rows the carried counts and tracker are what a later run would read back from the table. |
| RosterStability.LaterRunKeepsWindow | pkg/roster/worker.go:48-62 | A run that starts j weeks later rewrites every row of the earlier window as it was, if those j weeks are free of locks and off-grid rows; later weeks may be locked. |
| RosterStability.GeneratingIsIdempotent | pkg/roster/scheduler.go:32-125 | Generating twice is generating once, whatever is locked or off the grid. |
| RosterStability.StoredWeeksStayBalanced | pkg/roster/scheduler.go:32-123 | The primary weeks stored for any two members stay within max(s0, 1) + 1 of each other up to any week of a clean window. |
| RosterStability.TopUpsKeepPublishedWeeks | pkg/roster/worker.go:66-88 | Over any number of top-ups on any days in order, no later one changes a week an earlier one reached, while members and settings stay and no week between the first start and the last is locked or off the grid; from the last start on, weeks may be locked. |
| RosterLaterRuns.LaterRunCountsMore | pkg/roster/scheduler.go:32-41 | A later run counts for each member what the first run did, and in addition every locked or off-grid row that names him. |
| RosterLaterRuns.DifferentDuties | pkg/roster/scheduler.go:96-108 | A week that is not locked and that the two runs decide differently is changed by the later one. |
| RosterReshuffles.ThreeReshuffle | pkg/roster/scheduler.go:32-41 | For three or more members, any cap and any non-empty set of irregular days, a sound table with those days that the later run changes. |
| RosterReshuffles.TwoReshuffle | pkg/roster/scheduler.go:82-94 | The same for two members and a cap of two or more. |
| RosterPairs.PairKeepsNextWeek | pkg/roster/scheduler.go:54-74 | Two members with a cap of one keep the next week whatever was irregular earlier, if the week before it is regular and only that week is at stake. |
| RosterPairs.EmptyWeekReshuffles | pkg/roster/scheduler.go:58-63 | If the week before is irregular, a sound table on which they do not. |
| RosterPairs.ResetReshuffles | pkg/roster/scheduler.go:82-94 | If two weeks are at stake and any day is irregular, a sound table on which they do not. |
| RosterWindows.LoneMemberStable | pkg/roster/scheduler.go:163-173 | A lone member keeps all published weeks, whatever is irregular. |
| RosterWindows.WindowStableIff | pkg/roster/scheduler.go:32-94 | For every roster: a later run keeps the published weeks of all sound tables with given irregular days before it if and only if the roster tolerates those days: a lone member any, an alternating pair those that spare the last week while one week is at stake, every other roster none. |
| RosterWindows.LockedWeekReshuffles | pkg/roster/scheduler.go:82-94 | An instance: two members, one locked week, and the second week goes from one to the other. |
| RosterOperations.ActiveMembersInOrder | pkg/roster/store.go:264-290 | The active members are listed in joining order: at strictly increasing places of the member list, none of them left out. |
| RosterOperations.JoinedInOrder | pkg/roster/store.go:292-309 | A new member goes last; one who comes back keeps his place, and nobody else changes. |
| RosterOperations.JoiningOrderStays | pkg/roster/store.go:264-309 | Over any run of operations nobody changes places in the joining order. |
| RosterOperations.TiesGoToTheFirst | pkg/roster/scheduler.go:164-196 | For both duties: whoever is chosen has strictly less than every member who joined before and could have been chosen. |
| RosterOperations.FreshRosterRotates | pkg/roster/scheduler.go:13-126 | On a fresh roster of n active members, whatever the cap, generating stores for week i of the aligned window the member who joined i-th modulo n, with the next to join as secondary. |
| RosterOperations.RowsStay | pkg/roster/store.go:448-520 | No operation removes a row or moves the end of its week. |
| RosterOperations.GeneratedRowIs | pkg/roster/scheduler.go:82-110 | With an active member every unlocked week of the window becomes an unlocked generated row without notes, of seven days if it is new, with a primary who is not the secondary; a locked one stays. |
| RosterOperations.MemberChangesRegenerate | pkg/roster/service.go:68-110 | Adding or switching a member changes that member only, and leaves the schedule that generating from today with the new list leaves. |
| RosterOperations.WeeksAfterJoining | pkg/roster/service.go:68-80 | Once a member is added every unlocked week of the configured window is a generated row, and locked ones stay. |
| RosterOperations.EditStores | pkg/roster/service.go:122-127 | An edit stores the given primary, secondary and notes, locked and not generated, and touches no other week, member or setting. |
| RosterOperations.EditStands | pkg/roster/scheduler.go:82-94 | Over any run of operations an edited week keeps its pair, notes and lock until somebody edits or unlocks that very week. |
| RosterOperations.UnlockOnly | pkg/roster/store.go:509-520 | Unlocking clears the lock of that row and changes nothing else. |
| RosterOperations.UnlockedIsReassigned | pkg/roster/scheduler.go:82-110 | Once a week is unlocked, a run over it assigns it anew. |
| RosterOperations.TopUpsAreRuns | pkg/roster/worker.go:48-88 | The worker topping up day after day is generating on those days for the configured number of weeks. |
| RosterOperations.WeekdaysGoRound | pkg/roster/scheduler.go:128-139 | The weekday used for alignment is the only numbering in which Sunday follows Saturday and 1 January 1970 is a Thursday. |
| RosterOperations.AlignmentsOfFebruary2026 | pkg/roster/scheduler_test.go:10-34 | The alignments of six dates in February and March 2026, as listed there. |
| ActiveHours.ActiveIffInDailyWindow | pkg/roster/service.go:359-454 | A roster that does not follow the sun is always on duty, and one that does in an unknown zone never; for every other both window tests ask one modular question, with equal ends meaning all day and twelve hours from the handoff without active hours. |
| ActiveHours.OnDutyFromStartToEnd | pkg/roster/service.go:404-454 | So many minutes after its start a shift with active hours is on duty until its end, all day if that is its start; without them, until twelve hours after the handoff. |
| ActiveHours.CoverExactlyOnceIff | pkg/roster/service.go:404-454 | Any two follow-the-sun rosters in known zones, with active hours or without, cover every instant exactly once if and only if together they last a day and one begins where the other ends. |
| ActiveHours.CoverAlwaysIff | pkg/roster/service.go:404-454 | They leave no instant uncovered if and only if one lasts all day, or each begins before or where the other ends. |
| ActiveHours.HandoffsTwelveHoursApart | pkg/roster/service.go:435-454 | For two rosters that go by the handoff window, because their active hours are missing or incomplete, the first condition says that their handoffs are twelve hours apart. |
| ActiveHours.ComplementaryFill | pkg/roster/service.go:404-454 | Exactly-once cover, and handoffs twelve hours apart, leave no instant uncovered. |
| Coverage.MidnightIsDay | pkg/roster/service.go:382-385 | Comparing an instant with a date's midnight is comparing its day number with the date. |
| Coverage.FirstOverrideFound | pkg/roster/store.go:559-584 | Within the window the prefetched overrides contain one for an instant exactly when the table does. |
| Coverage.FirstWeekFound | pkg/roster/service.go:381-399 | The scan finds a week exactly when a listed row covers the instant, with that row's two names. |
| Coverage.PrefetchReachesFarEnough | pkg/roster/service.go:282-283 | No row of at most eight days that covers an instant of the window starts outside the prefetched range. |
| Coverage.CacheAnswersDirectly | pkg/roster/service.go:373-402 | For every instant of the window the primary from the prefetched rows is one the direct lookup may give, for any table of such rows; the service stores seven days. |
| Coverage.PrefetchSufficesIff | pkg/roster/service.go:282-283 | For every table, with any overrides and overlaps, cache and lookup agree for every window if and only if rows that began more than a week earlier never alone cover an instant, unless an override or a row without a primary hides it; rows of at most eight days never do. |
| Coverage.DirectAnswerUnique | pkg/roster/service.go:172-234 | Where no two overrides and no two weeks overlap, the direct lookup has only one answer. |
| Coverage.CacheSource | pkg/roster/service.go:373-402 | The reported source is override, schedule or unassigned exactly as overrides and named primaries say, and a secondary is given only with a scheduled primary, from the same row. |
| Coverage.LongRowEscapesPrefetch | pkg/roster/service.go:282-283 | An instance of a longer row, which the service cannot store: it only shows why short rows are required. |
| Coverage.CoverageOfSlot | pkg/roster/service.go:296-310 | The inner loop lists exactly the rosters on duty, in order, with what each one's rows resolve to. |
| Coverage.GetCoverage | pkg/roster/service.go:239-356 | The slots step through the window, a slot is a gap exactly when it has no coverage, the gaps are the runs of gap slots clipped at the end, and the total is the uncovered time rounded down by less than a minute; without active rosters the report is empty. |
| Coverage.RunsAreMaximal | pkg/roster/service.go:318-345 | Those runs are maximal, in order, with a covered slot between any two, and leave out no gap slot. |
| Coverage.GapInstantsIff | pkg/roster/service.go:318-345 | An instant lies in a reported gap if and only if it lies in a gap slot, clipped at the end of the window. |
| Coverage.GapInWindow | pkg/roster/service.go:318-345 | Every reported gap lies in the window and has a length. |
| Coverage.GapsApart | pkg/roster/service.go:318-345 | The gaps are in order, with time between any two. |
| Coverage.CoveredIffSomeoneActive | pkg/roster/service.go:296-312 | A slot is covered exactly when some active roster is on duty. |
| Coverage.FollowTheSunReportsNoGap | pkg/roster/service.go:293-353 | A report over two active rosters whose shifts leave no instant uncovered has no gap, whatever the window and resolution. |
| ReportContents.ActiveRostersInOrder | pkg/roster/service.go:256-282 | The report looks at the rosters that are switched on, in their order, and at no others. |
| ReportContents.CoverageIs | pkg/roster/service.go:296-310 | A slot has one entry for each roster on duty, in order, with that roster's id and what its rows resolve to. |
| ReportContents.ListedAreOnDuty | pkg/roster/service.go:296-310 | A slot of any report lists an id exactly when a roster with it is switched on and on duty then. |
| ReportContents.OrdinaryRosterLeavesNoGap | pkg/roster/service.go:293-365 | With a roster that is switched on and does not follow the sun, every slot of any report lists it, no gap is reported and the total is 0, whatever the window and resolution. |
| ReportContents.SlotsAtResolution | pkg/roster/service.go:239-296 | Slot n is n resolutions after the start of the window and before its end; a resolution that is not positive means an hour. |
| ReportContents.TotalIsOfGaps | pkg/roster/service.go:318-353 | The total is the length of the reported gaps together, rounded down by less than a minute. |
| ReportContents.ResolvedFromRows | pkg/roster/service.go:373-402 | Where nothing overlaps: an override gives its user from its start to before its end; else a week gives its two users from midnight of its first day to midnight of its end, if its primary has a name; else nobody is assigned. |
| Escalation.FirstAboveIs | pkg/escalation/engine.go:143-152 | The search gives the first tier above the current one, or there is none. |
| Escalation.Alert.ProcessAlert | pkg/escalation/engine.go:122-231 | One evaluation, with the lookup or either write failing, moves tier and event log exactly as the tier machine does, and reports an error exactly when the policy could not be read or a due advance failed. |
| Escalation.ProcessTenant | pkg/escalation/engine.go:105-118 | Every firing alert with a policy gets its own evaluation, whichever others fail, no other alert changes, and the failed ones are named. |
| Escalation.DryRun | pkg/escalation/handler.go:203-214 | One step per tier: the first at its own timeout, each later one that much after the one before, and the total is the last. |
| Escalation.Int32Wraps | pkg/escalation/engine.go:170-200 | The stored tier is the one 32-bit number that differs from the given by a multiple of two to the 32nd. |
| Escalation.PeaksAre | pkg/escalation/engine.go:146-152 | The tiers above all those listed before them, in order of position and of number; the first tier is one. |
| Escalation.NextPeak | pkg/escalation/engine.go:143-168 | From wherever it stands the engine goes to the next such tier, after the last to the first tier if the policy repeats and nowhere if not. |
| Escalation.AdvanceIff | pkg/escalation/engine.go:170-182 | An evaluation finds something due exactly when that next stop is due. |
| Escalation.TickKeepsOrder | pkg/escalation/engine.go:170-213 | An evaluation that updates the tier makes the next stop, with or without its event; any other changes nothing. |
| Escalation.EscalationOrder | pkg/escalation/engine.go:143-213 | For every policy and whatever fails, the recorded tiers go round the peaks in order from the first above zero, round again only with repeat, the events are a subsequence of them, and the row shows the last. |
| Escalation.InOrderPeaks | pkg/escalation/engine.go:146-152 | If the tiers are above zero and increasing, the peaks are all tiers and none is skipped. |
| Escalation.NoTierTwiceInARound | pkg/escalation/engine.go:143-168 | Within one round no tier is recorded twice. |
| Escalation.EveryAdvanceUsesATier | pkg/escalation/engine.go:154-168 | Without repeat each advance uses up one remaining peak. |
| EscalationDryRun.StepsDueArePrefix | pkg/escalation/handler.go:203-214 | The dry-run steps due at an age are the first so many, unless a timeout is negative. |
| EscalationDryRun.EvaluationLaw | pkg/escalation/engine.go:143-182 | For every policy an evaluation makes at most one stop, and exactly when the next is due. |
| EscalationDryRun.EngineNeverAhead | pkg/escalation/engine.go:143-182 | Without repeat, for any tiers, timeouts and evaluation times, the engine never runs ahead of the dry run. |
| EscalationDryRun.InStepIff | pkg/escalation/engine.go:138-182 | For every policy and any evaluation times the engine is in step with the dry run if and only if at each evaluation the dry run's count rises by one when the next stop is due and not otherwise. |
| EscalationDryRun.EngineMatchesDryRunIff | pkg/escalation/engine.go:138-182 | Without repeat and negative timeouts, in whatever order the tiers are: if and only if no two steps fall due between one evaluation and the next and the tiers due so far are above zero and increasing. |
| EscalationDryRun.FrequentTicksMatch | pkg/escalation/engine.go:138-182 | Ordered tiers, and evaluations no further apart than any timeout, the first before the second step, meet that. |
| EscalationDryRun.ReachableIff | pkg/escalation/engine.go:143-182 | Without repeat an alert can be taken through so many tiers if and only if the policy has as many peaks above zero. |
| EscalationDryRun.FullyEscalatedIff | pkg/escalation/engine.go:143-168 | A policy without repeat can take an alert through as many tiers as it lists if and only if their numbers are above zero and strictly increasing. |
| EscalationDryRun.TierRecordedIff | pkg/escalation/engine.go:143-168 | A tier number can be recorded if and only if a peak above zero has it, or any peak of a policy that repeats. |
| EscalationDryRun.UnorderedTierSkipped | pkg/escalation/engine.go:146-152 | An instance: with tiers 2 and 1 in that order the dry run has both due, and the engine never records tier 1. |
| EscalationDryRun.LateTickFallsBehind | pkg/escalation/engine.go:146-182 | An instance: two tiers due at the first evaluation, one reached. |
| EscalationDryRun.MovesOnlyWhenListed | pkg/escalation/engine.go:170-213 | An evaluation of any alert, with any fault, that changes it moves it to a tier whose minutes listed by the dry run have passed. |
| EscalationDryRun.EngineGoesByTheList | pkg/escalation/engine.go:138-213 | An error-free evaluation moves an alert to its next stop if the minutes the dry run lists for that tier have passed, and leaves it alone if they have not. |
| EscalationDryRun.OneTierFromItsTimeout | pkg/escalation/engine.go:138-213 | Under a policy of one tier above zero the escalation comes exactly from its timeout on. |
| EscalationDryRun.AfterTheLastTier | pkg/escalation/engine.go:154-168 | After the last tier an alert goes back to the first, once that is due again, exactly if the repeat count is positive. |
| EscalationDryRun.TurnsAreTicks | pkg/escalation/engine.go:122-213 | The life of an alert under ProcessAlert is a run of the tier machine, a policy that cannot be read counting as an update that fails; without a policy nothing happens. |
| EscalationDryRun.ErrorsMean | pkg/escalation/engine.go:122-213 | An evaluation that reports no error went as if nothing had failed; an error is reported exactly when the policy there is cannot be read or a write fails that would have moved the alert, and only a failing event leaves the alert moved. |
| Incidents.DedupIs | pkg/incident/service.go:314-331 | The deduplicated list has the same elements, each once. |
| Incidents.DedupKeepsFront | pkg/incident/service.go:314-331 | What is appended never disturbs the elements in front. |
| Incidents.UnionSlice | pkg/incident/service.go:314-331 | The union has the elements of both lists once each, the first list's in front and in order. |
| Incidents.IncidentService.AddAlert | pkg/alert/enrich.go:95-116 | A new alert is matched only to an incident that is neither merged nor archived. |
| Incidents.IncidentService.Delete | pkg/incident/store.go:148-159 | Archives an open incident by pointing it at itself, and refuses any other. |
| Incidents.IncidentService.Update | pkg/incident/store.go:131-145 | Replaces the fields and never the link. |
| Incidents.IncidentService.ReassignAlerts | pkg/incident/store.go:334-342 | Moves exactly the source's alerts to the target, or fails and moves none. |
| Incidents.IncidentService.Merge | pkg/incident/service.go:234-312 | Fails with the first check that does not hold and changes nothing; otherwise the target's fields and the source's link change together, and the alerts too unless their reassignment fails, which does not undo the merge. |
| Incidents.RootIs | pkg/incident/store.go:307-318 | Any walk up the links that ends, ends at the same incident. |
| Incidents.LinkedRoot | pkg/incident/store.go:307-318 | Linking an open incident moves its whole tree under the target and no other root. |
| Incidents.ApplyRoots | pkg/incident/service.go:234-289 | Only a merge changes roots, and only those that were the source. |
| Incidents.RecordSound | pkg/incident/service.go:234-289 | Every operation keeps the links terminating, and the alerts on the roots of their first matches unless a failed reassignment leaves some behind. |
| Incidents.AlertsPointAtRootsIff | pkg/incident/service.go:234-289 | After any run of create, edit, archive and merge the links terminate, and each matched alert points at the root of the incident it first matched if and only if every merge whose reassignment failed had no alert to reassign. |
| Incidents.AlertsPointAtRoots | pkg/incident/service.go:234-289 | With no failed reassignment every alert does, and none points at an incident merged into another. |
| Incidents.StrandedForGood | pkg/incident/service.go:284-289 | An alert left behind on a merged incident is never moved again. |
| Incidents.MergedSumsUp | pkg/incident/service.go:255-271 | If target and source each sum up a set of incidents, the merged fields sum up both sets. |
| Incidents.TreeAfter | pkg/incident/store.go:307-318 | A merge joins the two trees, and every other tree stays. |
| Incidents.MergesConserve | pkg/incident/service.go:255-271 | After any run without edits an incident not merged away has the list entries of its whole tree and no others, its highest severity, one of its longest texts, and a runbook if any has one, whatever the merge order. |
| Incidents.OwnFieldsStay | pkg/incident/service.go:255-271 | Without edits an incident keeps its title, category and runbook, and each list is as it was or free of repeats with its own elements in front. |
| IncidentOutcomes.SurvivorSeverity | pkg/incident/service.go:347-354 | After any run without edits an incident not merged away is critical if and only if one of its tree was created critical; short of that major if and only if one was created major; short of both a warning if and only if one was created a warning. |
| IncidentOutcomes.SeverityStaysUnlessHigher | pkg/incident/service.go:347-354 | The first severity stays unless the second is higher in the order warning, major, critical. |
| IncidentOutcomes.TextStaysUnlessShorter | pkg/incident/service.go:333-345 | The first text stays unless it is missing or strictly shorter. |
| IncidentOutcomes.CreateAdds | pkg/incident/store.go:79-92 | Creating adds an open incident with the given fields and changes nothing else. |
| IncidentOutcomes.EditReplacesAll | pkg/incident/store.go:131-145 | An edit replaces all fields of that incident, and no link, alert or other incident. |
| IncidentOutcomes.ArchiveLinksItself | pkg/incident/store.go:148-159 | Archiving points an incident without a link at itself and changes nothing else. |
| IncidentOutcomes.MergeErrorIs | pkg/incident/service.go:235-253 | Two incidents merge exactly when they differ, both exist and neither has a link; otherwise the error is the first of these in the source's order. |
| IncidentOutcomes.MergeLeaves | pkg/incident/service.go:255-289 | A merge leaves the source as it was with a link to the target, the target open with the combined fields, the source's alerts with the target unless reassigning failed, and everything else alone. |
| IncidentOutcomes.AlertMatchedOnce | pkg/alert/enrich.go:95-116 | An alert is matched once, to an incident without a link, and that changes no incident. |
| GroupKeys.SortStringsSorts | pkg/alertgroup/alertgroup.go:136 | Sorting gives a sorted list of the same strings. |
| GroupKeys.SortedUnique | pkg/alertgroup/alertgroup.go:136 | There is only one sorted list of given strings. |
| GroupKeys.PairBagTakes | pkg/alertgroup/alertgroup.go:133-135 | The lines of a label map are the same whichever label is taken first. |
| GroupKeys.ComputeGroupKey | pkg/alertgroup/alertgroup.go:131-137 | Taking the labels in any order, the text to be hashed is the sorted lines of all labels, joined. |
| GroupKeys.KeyUnique | pkg/alertgroup/alertgroup.go:131-137 | A label map has only one key, so the order of iteration does not matter. |
| GroupKeys.DecodeJoined | pkg/alertgroup/alertgroup.go:133-137 | Round trip: the joined lines read back as the labels they came from. |
| GroupKeys.LeqIsLexicographic | pkg/alertgroup/alertgroup.go:136 | Lines are sorted by the first place where they differ, a prefix first. |
| GroupKeys.KeyOfTwoLabels | pkg/alertgroup/alertgroup.go:131-137 | The key of two labels is their two key=value lines with a line break between, the one that sorts first in front, however the map gives them out. |
| KeySeparation.JoinInjective | pkg/alertgroup/alertgroup.go:137 | Joined lines that are not empty and hold no line break can be taken apart again. |
| KeySeparation.KeyInjective | pkg/alertgroup/alertgroup.go:131-137 | Two label maps without line breaks in values share a key only if they are equal, provided that no key holds an equals sign, or that no key holds a line break and none, with an equals sign after it, begins another. |
| KeySeparation.SameKeysInjective | pkg/alertgroup/alertgroup.go:131-137 | Over the same keys, line breaks in them or not, two label maps without line breaks in values share a group key only if they are equal, provided that no key, with an equals sign after it, begins another. |
| KeySeparation.KeyInjectiveIff | pkg/alertgroup/alertgroup.go:131-137 | For every set of keys: all label maps over it with values without line breaks have different group keys if and only if no key, with an equals sign after it, begins another; where one does, the rest of the other is taken to hold no line break. |
| KeySeparation.ExtensionCollides | pkg/alertgroup/alertgroup.go:134 | For any two keys of which one so begins the other, two different maps over any keys around them that share a group key. |
| KeySeparation.LineBreakCollides | pkg/alertgroup/alertgroup.go:137 | Over any two or more keys, two different maps with a line break in a value that share a group key. |
| KeySeparation.AnyValuesInjectiveIff | pkg/alertgroup/alertgroup.go:131-137 | With any values allowed, group keys tell all label maps over a set of keys apart if and only if it has at most one key. |
| KeySeparation.EqualsSignCollides | pkg/alertgroup/alertgroup.go:134 | An instance, with the keys a and a=b. |
| AlertGrouping.MatchAlert | pkg/alertgroup/alertgroup.go:99-128 | An alert matches exactly when every matcher holds; unknown operators and patterns that do not compile never hold. |
| AlertGrouping.ExtractGroupByLabels | pkg/alertgroup/alertgroup.go:156-162 | Exactly the group-by keys, each with the alert's value or empty. |
| AlertGrouping.CaseIsMaxSeverityIff | pkg/alertgroup/store.go:144-149 | The CASE expression is the maximum by rank if and only if it is not an unknown severity meeting info. |
| AlertGrouping.GroupingService.FindOrCreateGroup | pkg/alertgroup/store.go:114-128 | An existing group keeps its counters, a new one starts empty at info. |
| AlertGrouping.GroupingService.AssignAlertToGroup | pkg/alertgroup/store.go:131-159 | Sets this alert's group and moves this group's counters, nothing else. |
| AlertGrouping.GroupingService.PutInGroup | pkg/alertgroup/evaluator.go:53-68 | The computed key is the one key of the labels, so the alert lands in the group its rule determines. |
| AlertGrouping.GroupingService.Evaluate | pkg/alertgroup/evaluator.go:28-86 | The first enabled matching rule, and no other, takes the alert; without labels or a match nothing changes. |
| AlertGrouping.GroupingService.BackfillRule | pkg/alertgroup/evaluator.go:91-142 | Groups exactly the ungrouped firing alerts that match and returns how many became grouped. |
| AlertGrouping.LastRuleTarget | pkg/alertgroup/evaluator.go:48-83 | A rule placed last takes only alerts no other rule takes. |
| AlertGrouping.BackfillIgnoresLater | pkg/alertgroup/evaluator.go:103-131 | Backfilling earlier alerts and grouping a later one under another rule can be swapped. |
| AlertGrouping.BackfillSkips | pkg/alertgroup/store.go:92-109 | A backfill leaves alerts that no longer fire where they are. |
| AlertGrouping.BackfillEqualsOnlineIff | pkg/alertgroup/evaluator.go:28-142 | Creating a rule after all others and backfilling it gives the same assignments and counters as having had it from the first alert, if and only if every alert that this rule takes and no other does still fires. |
| AlertGrouping.AssignKeepsExact | pkg/alertgroup/store.go:131-159 | Assigning an ungrouped alert keeps every group's counters exact. |
| AlertGrouping.RunsKeepCountersExact | pkg/alertgroup/store.go:131-159 | Over any run each group's count is the number of its alerts and its severity the highest of theirs, at least info. |
| AlertGrouping.SameGroupIff | pkg/alertgroup/alertgroup.go:130-162 | Two alerts with values without line breaks taken by one rule share a group if and only if they agree on every group-by label, provided that no group-by key, with an equals sign after it, begins another. |
| AlertGrouping.GroupsByLabelsIff | pkg/alertgroup/alertgroup.go:130-162 | All rules with a group-by list group all alerts without line breaks in values by those labels if and only if no key of the list, with an equals sign after it, begins another; where one does, the rest of the other is taken to hold no line break. |
| GroupingOutcomes.OperatorsMean | pkg/alertgroup/alertgroup.go:99-128 | "=" and "!=" are opposites, a missing label counting as empty; "=~" and "!~" are where the pattern compiles and neither holds where it does not; no other operator ever holds. |
| GroupingOutcomes.FirstTakerWins | pkg/alertgroup/evaluator.go:28-86 | An alert goes to its group of the first enabled rule in order whose matchers all hold, and nowhere if there is none; the group is the rule's id with the key of its group-by labels. |
| GroupingOutcomes.ArrivalsGoToTheFirst | pkg/alertgroup/evaluator.go:28-86 | Of any alerts evaluated as they arrive, each is in that group. |
| GroupingOutcomes.BackfillAssigns | pkg/alertgroup/evaluator.go:91-142 | A backfill groups exactly the ungrouped firing alerts its rule takes, and leaves every other where it is. |
| GroupingOutcomes.AssignmentsStay | pkg/alertgroup/store.go:92-109 | Of all operations only a backfill groups an alert that is there, and none moves one from its group. |
| GroupingOutcomes.ArrivalIsGrouped | pkg/alertgroup/evaluator.go:28-86 | At any point of a run a new alert goes to its group of the first rule there is then that takes it, and no other alert moves. |
| GroupingOutcomes.BackfillIsComplete | pkg/alertgroup/evaluator.go:91-142 | At any point of a run a backfill groups every ungrouped firing alert its rule takes, and nothing else. |
| GroupingOutcomes.GroupSeverities | pkg/alertgroup/store.go:131-159 | Over any run each group counts its alerts; it is critical with a critical one, else major with a major one, else warning with a warning, else info. |
| AuditWriter.RunsConserve | internal/audit/audit.go:126-171 | At every point of every run the accepted entries are the flushed, then the batch, then the queue, in order; queue and batch stay within bounds, and after an exit no batch is left. |
| AuditWriter.ExitIsFinal | internal/audit/audit.go:142-168 | After an exit nothing more is handed to flush. |
| AuditWriter.CloseFlushesEverything | internal/audit/audit.go:143-147 | Leaving by the closed channel implies that everything accepted was handed to flush. |
| AuditWriter.CancelFlushesUpToLastRead | internal/audit/audit.go:154-168 | Leaving by cancellation implies that everything accepted up to the last empty read was, and nothing later. |
| AuditWriter.AllFlushedIff | internal/audit/audit.go:154-168 | After that exit everything accepted was handed to flush if and only if nothing has been logged since. |
| AuditWriter.LateEntryIsStranded | internal/audit/audit.go:72-87 | A run in which an accepted entry is never flushed. |
| AuditWriter.DrainShrinks | internal/audit/audit.go:155-168 | Each pass of the drain shortens the queue or leaves. |
| AuditWriter.LogsHoldFlushed | internal/audit/audit.go:174-221 | The log of a schema for which nothing ever failed holds exactly its flushed entries in the order of acceptance, however the batches fell. |
| AuditWriter.CleanCloseWritesAll | internal/audit/audit.go:143-221 | After a close that log is everything accepted for the schema. |
| AuditWriter.LogsOnlyLose | internal/audit/audit.go:174-221 | Whatever schemas and rows failed, a log holds only entries flushed for its schema, in order and at most once each. |
| AuditWriter.Writer.Log | internal/audit/audit.go:80-87 | Drops the entry exactly when the buffer is full and otherwise queues it last. |
| AuditWriter.Writer.FlushBatch | internal/audit/audit.go:132-138 | Hands the whole batch over and starts an empty one; an empty batch does nothing. |
| AuditWriter.Writer.Step | internal/audit/audit.go:140-170 | One pass through the select is the step of the transition system for the case taken. |
| AuditWriter.GroupBySchema | internal/audit/audit.go:175-179 | Partitions a batch by schema, keeping the order within each. |
| AuditWriter.WriteRows | internal/audit/audit.go:203-217 | Appends one schema's rows in order, passing over those the database refuses. |
| AuditWriter.Flush | internal/audit/audit.go:174-221 | In any order of the schemas, each reachable named schema gets its entries appended but for refused rows, and the others nothing. |
| AuditOutcomes.LogTakesIn | internal/audit/audit.go:80-87 | A logged entry is accepted, last in the queue, unless 256 are waiting; then nothing changes. |
| AuditOutcomes.TickHandsOver | internal/audit/audit.go:152-153 | After a tick no batch is left, and everything accepted has been handed to flush but for the queue. |
| AuditOutcomes.TakingGathers | internal/audit/audit.go:142-163 | The oldest entry is taken; while the loop runs the 32nd hands the batch over, before that and in a drain entries gather. |
| AuditOutcomes.LeavingHandsOver | internal/audit/audit.go:143-168 | Leaving either way finds the queue empty and hands over what was gathered. |
| AuditOutcomes.OthersMoveNothing | internal/audit/audit.go:72-76 | Closing, cancelling and noticing the cancellation move no entry. |
| AuditOutcomes.ReadyIff | internal/audit/audit.go:140-170 | Which cases of the select are ready, for every state. |
| AuditOutcomes.CanAlwaysLeave | internal/audit/audit.go:140-170 | From any point of any run, once closed or cancelled, the writer can take what is queued and leave with everything accepted so far handed over. |
| AuditOutcomes.OfSchemaIs | internal/audit/audit.go:175-179 | A schema's rows are the batch's entries for it, in order and as often. |
| AuditOutcomes.TakenIsLogged | internal/audit/audit.go:142-221 | In a run without outages, after a tick or the 32nd entry everything taken by then is in its named schema's log. |
| AuditOutcomes.OnlyRefusedMissing | internal/audit/audit.go:203-217 | Every row that is not refused is written, in its place among those, so rows after a refused one are too. |
| AuditOutcomes.FlushAppends | internal/audit/audit.go:184-221 | A flush appends a batch's rows to each named schema that can be reached and touches no other. |

## Left out

- RosterService.Roster.GenerateSchedule: a store error in the middle of a run, which would leave the earlier weeks written, is not modelled; store calls succeed.
- RosterService.Roster.AddMember: a member's joining time is only a place in the list, and display names and counts of weeks served are not returned.
- Coverage.GetCoverage: the totals are whole minutes; the conversion to hours in floating point is left out, as are the rosters' descriptive fields.
- Coverage.CacheAnswersDirectly: compares primaries only, because the lookup and the report differ on the secondary under an override and on the source of a week without a primary, by design.
- Escalation.Alert.ProcessAlert: the conversion of minutes to a 64-bit duration does not overflow in the model, and notification, publishing and metrics are left out.
- Incidents.IncidentService.Merge: a merge is one atomic step, so two merges at once are left out, as are an error between its first two writes and the history rows.
- GroupKeys.ComputeGroupKey: the hash itself is left out; the key is the hashed text, which amounts to a hash without collisions.
- KeySeparation.KeyInjectiveIff: leaves out keys that begin, with an equals sign, another key whose rest holds a line break; there the order of the lines can depend on the values.
- AlertGrouping.GroupsByLabelsIff: leaves out the same group-by lists.
- AlertGrouping.RunsKeepCountersExact: an error between finding a group and counting the alert is not modelled, and neither is deleting a rule with its groups.
- AuditWriter.Flush: the ten seconds after which a flush gives up are not modelled, beyond the schemas and rows that fail.
- Time zone tables and daylight-saving changes: zones are fixed offsets.
- Interleaving inside one request and concurrent requests on the same rows.
- HTTP handlers, authentication, sessions, tokens and tenants: plumbing around the modelled operations.
- Redis deduplication of alerts, full-text search and its ranking, and JSON parsing.
- The calendar export, the handoff notifier, chat and telephone integrations, runbooks, metrics and the front end: output only.
- Titles of alert groups: a second printing of the labels that nothing reads back.
