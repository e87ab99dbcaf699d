# Gym backend: check-in lifecycle and surrounding rules, in Dafny

This project models the logic of a gym/academy backend. The centre is the
**check-in lifecycle**: students, instructors and admins book a place in
a scheduled class, cancel it, and confirm it, subject to the class's
phase, role permissions and the class capacity. Around it sit small pure
rules:

- the phase of a class (`not-started`, `in-progress`, `finished`);
- the filters and the pagination cursor of class listings;
- the attendance statistics of a class;
- single and recurring class scheduling;
- email-code account activation, and the zero-padded numeric code;
- the role gate in front of every route.

Each HTTP handler is a pure function. It takes the store state, the
request and the current instant, and returns a reply kind (with its HTTP
status as `Code()`) and the next store state. The store is sequential
state: check-in rows are a sequence, and classes and users are maps. The
lemmas state the invariants the handlers keep:

- at most one row per (user, class) pair, and unique row ids;
- no class holding more pending or done rows than its capacity;
- at most one valid confirmation per user.

They also show the one place where capacity is not kept.

Modules, one per source file or concern:

| file | module | source |
|---|---|---|
| core.dfy | `Core` | shared types; first-row lookup |
| role_gate.dfy | `RoleGate` | src/hooks/check-user-role.ts |
| class_phase.dfy | `ClassPhase` | src/utils/get-class-status.ts |
| checkin_store.dfy | `CheckinStore` | the check-in table; src/constants/index.ts |
| checkin_routes.dfy | `CheckinRoutes` | src/routes/checkin/*.ts |
| class_statistics.dfy | `ClassStatistics` | src/routes/classes/get-class-by-id.ts |
| calendar.dfy | `Calendar` | instants and day ordinals |
| class_filters.dfy | `ClassFilters` | src/utils/class-filters.ts |
| recurring_dates.dfy | `RecurringDates` | src/utils/generate-date.ts |
| class_scheduling.dfy | `ClassScheduling` | src/routes/classes/create-class.ts, create-class-bulk.ts |
| verification_code.dfy | `VerificationCode` | src/lib/verification.ts |
| email_confirmation.dfy | `EmailConfirmation` | src/routes/auth/activate-account.ts, resend-code.ts |

Representation choices:

- Identifiers are naturals. Where the source compares uuids (the cursor),
  integer order stands for uuid order.
- Instants are integer milliseconds. Calendar days are integer ordinals
  from 1970-01-01. The weekday of day `d` is `(d + 4) % 7`, with Sunday
  as 0 as in `getDay`.
- The current instant is a parameter of every handler that reads the clock.
- The status a fresh check-in row receives is a parameter of type
  `FreshStatus` (pending or done), because the table definition has no
  status column and so shows no default. Both values take a place in the
  capacity count.
- Fresh row ids, the random draw of the verification code, the hash of
  the new code and the bcrypt comparison are all parameters.

Notes on the code's behaviour, which the model reproduces:

- A check-in has three states: pending, done and cancelled.
- Reactivating a cancelled row sets it to *pending*. It skips the capacity
  check and replies 409.
- None of the three check-in handlers ever writes a cancelled row
  (`HandlersNeverWriteCancelled`). Cancelled rows come only from data
  written outside them, such as the seed script.
- Cancelling *deletes* the row. It does not mark it cancelled, and it never
  looks at the row's status (`CancelIgnoresStatus`).
- Creation never checks that the target user exists or is active. An unknown
  target is refused only at the insert, by the foreign key on `checkins.userId`
  (src/database/schema.ts:84). The generic error handler then answers 500
  (`InsertRejected`). This happens after the capacity check; a reactivation
  updates an existing row and never meets the key.
- `create-class` computes an initial status (src/routes/classes/create-class.ts:98-106)
  but its insert never writes it. The model returns it beside the record only so
  that its value can be stated.
- `resend-code` stores the new confirmation before it calls the mail service
  (src/routes/auth/resend-code.ts:51-58). A failed send answers 500 but keeps the
  stored code, and later requests then find it valid and send nothing
  (`FailedSendSilencesResend`).
- `confirm-checkin`, `activate-account` and `resend-code` are defined but not
  registered in src/app.ts:33-49, so the running application cannot reach them.
  The model states what their handlers would do.
- Creation does not touch any belt-progress counter.
- Confirmation has no permission check beyond the role gate.
- Cancellation denies an instructor of another class even when they act on
  themselves. Creation allows it (`InstructorOfOtherClassAsymmetry`).

## Model

| member | source | states |
|---|---|---|
| RoleGate.CheckUserRole | src/hooks/check-user-role.ts:6-13 | the request proceeds iff the caller's role is in the list; otherwise the reply is 401 |
| RoleGate.EmptyListRejectsAll | src/hooks/check-user-role.ts:10-11 | an empty role list rejects every role |
| RoleGate.AllRolesAdmitEveryone | src/routes/checkin/create-checkin.ts:15-18 | the three-role list the check-in routes register admits every role |
| ClassPhase.GetClassStatus | src/utils/get-class-status.ts:9-20 | not-started iff now < start; in-progress iff start <= now < end; finished iff now >= start and now >= end; so exactly one phase |
| ClassPhase.StartInstantIsInProgress | src/utils/get-class-status.ts:18 | at now = start the class is already in progress |
| ClassPhase.EmptyWindowNeverInProgress | src/utils/get-class-status.ts:18 | when end <= start the phase is never in-progress |
| ClassPhase.PhaseMonotone | src/utils/get-class-status.ts:17-19 | as now grows the phase never moves backwards |
| CheckinStore.FindPair | src/routes/checkin/create-checkin.ts:81-84 | the lookup returns a row of the (user, class) pair, and returns none iff no row has that pair |
| CheckinStore.FindById | src/routes/checkin/confirm-checkin.ts:28-31 | the lookup returns a row with the id, and returns none iff no row has it |
| CheckinStore.ActiveCount | src/routes/checkin/create-checkin.ts:103-108 | the count of a class's pending and done rows: never more than the rows, and 0 iff no row takes a place in that class |
| CheckinStore.RemovePair | src/routes/checkin/cancel-checkin.ts:108-113 | the rows left are exactly the rows not of the pair |
| CheckinStore.ActiveCountAppend | src/routes/checkin/create-checkin.ts:103-116 | inserting a row raises only its own class's pending+done count, by one if the row occupies a place |
| CheckinStore.ActiveCountUpdate | src/routes/checkin/confirm-checkin.ts:66-69 | rewriting one row changes the counts only by the old and new row's weights |
| CheckinStore.ActiveCountRemove | src/routes/checkin/cancel-checkin.ts:108-113 | deleting a pair's rows never raises a count and leaves other classes' counts unchanged |
| CheckinStore.RemovePairWellFormed | src/routes/checkin/cancel-checkin.ts:108-113 | the delete keeps pairs and ids unique |
| CheckinRoutes.TargetOf | src/routes/checkin/create-checkin.ts:34-36 | the target is the body's userId, or the caller when none is given |
| CheckinRoutes.HasSpecialPermission | src/routes/checkin/create-checkin.ts:59-65 | admins always have it, students never, and an instructor iff they teach this class |
| CheckinRoutes.Reopened | src/routes/checkin/create-checkin.ts:88-91 | the reopened row keeps its id, user and class, is pending (so takes a place) and has no completion time |
| CheckinRoutes.CreateCheckin | src/routes/checkin/create-checkin.ts:29-124 | unknown class gives 400; 400 NotBookable comes iff the class exists and is not in the not-started phase, for every role; only the two success paths change the store; an insert happens only when no row of the pair exists, the count is below capacity and the target user exists; an unknown target on the insert path gives 500 and leaves the store unchanged; reactivation sets the cancelled row to pending with no completion time; a non-cancelled row gives 409; a full class gives 409 |
| CheckinRoutes.CreateForbiddenIff | src/routes/checkin/create-checkin.ts:59-72 | 403 iff the class is bookable, the caller is neither admin nor this class's instructor, and the target is someone else |
| CheckinRoutes.FreshCheckinFollowsCapacity | src/routes/checkin/create-checkin.ts:103-123 | once the gates pass and the pair has no row, 409 Full comes iff the count is not below capacity; below it, a new row is inserted iff the target user exists, and 500 InsertRejected comes iff it does not |
| CheckinRoutes.ReactivationIgnoresCapacity | src/routes/checkin/create-checkin.ts:86-101 | once the gates pass and the pair has a row, a cancelled row is reopened whatever the count, and any other row gives 409 |
| CheckinRoutes.CreateKeepsConsistent | src/routes/checkin/create-checkin.ts:81-116 | creation keeps at most one row per pair and unique ids, given a fresh row id |
| CheckinRoutes.CreateKeepsCapacityUnlessReactivated | src/routes/checkin/create-checkin.ts:103-116 | every creation outcome except reactivation keeps each class within capacity |
| CheckinRoutes.ReactivationCanOverfill | src/routes/checkin/create-checkin.ts:86-96 | a concrete store within capacity where a reactivation leaves a class over capacity |
| CheckinRoutes.CreateCheckinCapacityChecked | src/routes/checkin/create-checkin.ts:86-114 | the corrected creation: a cancelled row of the pair is reopened iff the class is below capacity, and refused with 409 Full iff it is not; every other outcome is the source's |
| CheckinRoutes.CheckedCreateKeepsCapacity | src/routes/checkin/create-checkin.ts:86-116 | with the correction, every creation outcome keeps each class within capacity |
| CheckinRoutes.CancelCheckin | src/routes/checkin/cancel-checkin.ts:31-120 | unknown class gives 400, then a missing row gives 400, then 403, then a started class gives 400, then an unknown target gives 400 (only for a permitted cancel of an existing row in a not-started class); every failure leaves the store unchanged; success deletes exactly the pair's rows |
| CheckinRoutes.MayCancel | src/routes/checkin/cancel-checkin.ts:74-77 | admins may cancel any row, an instructor iff they teach the class, and a student iff acting on self |
| CheckinRoutes.CancelForbiddenIff | src/routes/checkin/cancel-checkin.ts:67-83 | 403 iff the class and row exist and the caller is not an admin, not this class's instructor, and not a student acting on self |
| CheckinRoutes.InstructorOfOtherClassAsymmetry | src/routes/checkin/cancel-checkin.ts:67-83 | an instructor of another class passes creation's permission gate for self, but cancelling that row gives 403 |
| CheckinRoutes.CancelKeepsInvariants | src/routes/checkin/cancel-checkin.ts:108-113 | cancellation keeps unique pairs, unique ids and capacity |
| CheckinRoutes.CancelRemovesExactlyThePair | src/routes/checkin/cancel-checkin.ts:108-113 | in a consistent store a successful cancel removes exactly one row, and every row of another pair survives |
| CheckinRoutes.CancelIgnoresStatus | src/routes/checkin/cancel-checkin.ts:49-59 | changing the status of any row never changes the cancel reply |
| CheckinRoutes.ConfirmCheckin | src/routes/checkin/confirm-checkin.ts:25-72 | unknown id gives 400; a non-pending row gives 400; a pending row of an unknown class gives 400; a pending row of a known class with now >= start gives 400; success only rewrites that row to done with completedAt = now |
| CheckinRoutes.ConfirmSucceedsIff | src/routes/checkin/confirm-checkin.ts:33-69 | confirmation succeeds iff the id names a pending row of an existing class whose start lies ahead |
| CheckinRoutes.ConfirmKeepsActiveCounts | src/routes/checkin/confirm-checkin.ts:66-69 | confirming leaves every class's pending+done count unchanged |
| CheckinRoutes.ConfirmKeepsInvariants | src/routes/checkin/confirm-checkin.ts:66-69 | confirmation keeps unique pairs, unique ids and capacity |
| CheckinRoutes.HandlersKeepForeignKeys | src/database/schema.ts:82-87 | from a store whose every check-in names a known user and class, the results of create, cancel and confirm still do |
| CheckinRoutes.HandlersNeverWriteCancelled | src/routes/checkin/create-checkin.ts:86-116 | from a store without cancelled rows, creation never reactivates, and no handler's result holds a cancelled row |
| ClassStatistics.StatusCountsSplit | src/routes/classes/get-class-by-id.ts:94-103 | not-cancelled plus cancelled equals the number of rows; done never exceeds not-cancelled |
| ClassStatistics.OccupancyRate | src/routes/classes/get-class-by-id.ts:106-109 | 0 when capacity <= 0; otherwise the percentage total/capacity rounded to the nearest integer, halves up |
| ClassStatistics.OccupancyBounded | src/routes/classes/get-class-by-id.ts:106-109 | while total <= capacity, occupancy is between 0 and 100 |
| ClassStatistics.ComputeStatistics | src/routes/classes/get-class-by-id.ts:94-109 | total + cancelled = rows; completed <= total; availableSpots = capacity - total, unclamped; the occupancy rate as above |
| ClassStatistics.TotalIsActiveCount | src/routes/classes/get-class-by-id.ts:94-96 | the statistics' total is the same pending+done count that creation compares with capacity |
| ClassStatistics.GetClassById | src/routes/classes/get-class-by-id.ts:30-141 | 404 iff the class is unknown or its instructor is not a user (the inner join); otherwise the view carries the phase, the capacity, and the statistics computed from exactly this class's rows, with a total equal to its pending+done count |
| ClassStatistics.ConsistentViewWithinCapacity | src/routes/classes/get-class-by-id.ts:104-109 | while the capacity invariant holds, every view shows availableSpots >= 0 and occupancy between 0 and 100 |
| ClassFilters.BuildStatusFilters | src/utils/class-filters.ts:44-61 | no status gives no filter; a status gives exactly one |
| ClassFilters.StatusFilterAgreesWithPhase | src/utils/class-filters.ts:50-57 | when start < end, a phase's filter selects a class iff getClassStatus reports that phase |
| ClassFilters.InvertedWindowMatchesTwoPhases | src/utils/class-filters.ts:50-57 | when end < start, one class is selected both as not-started and as finished |
| ClassFilters.BuildCategoryFilter | src/utils/class-filters.ts:63-68 | an absent category gives no filter; a present one gives exactly one |
| ClassFilters.CategoryFilterMeaning | src/utils/class-filters.ts:63-68 | the category filter selects exactly the classes of that category |
| ClassFilters.BuildDateFilters | src/utils/class-filters.ts:15-42 | one filter per supplied day, in the order date, startDate, endDate, with day-start and day-end bounds |
| ClassFilters.DateFiltersMeaning | src/utils/class-filters.ts:22-41 | a class passes iff its start falls on date, on or after startDate, and on or before endDate, for each day supplied |
| ClassFilters.BuildCursorCondition | src/utils/class-filters.ts:70-90 | none iff no class has the cursor id; otherwise the cursor row's start time, its id and the order |
| ClassFilters.CursorFollowsKeyOrder | src/utils/class-filters.ts:83-89 | asc selects keys strictly after the cursor's (startTime, id) in lexicographic order; desc selects keys strictly before |
| ClassFilters.KeyBeforeIsStrictTotal | src/utils/class-filters.ts:83-89 | the (startTime, id) order is irreflexive, transitive and total on distinct keys |
| ClassFilters.CursorSplitsAroundItself | src/utils/class-filters.ts:83-89 | the cursor row is never selected; every other row is selected by exactly one of asc and desc |
| Calendar.DayBoundsIff | src/utils/class-filters.ts:7-13 | an instant is at or after start-of-day d iff its day is >= d; at or before end-of-day d iff its day is <= d |
| RecurringDates.MatchingDays | src/utils/generate-date.ts:34-41 | the days of lo..hi with a listed weekday, each once, ascending, none outside the range |
| RecurringDates.GenerateClassDates | src/utils/generate-date.ts:18-45 | a missing bound is an error; start after end is an error; otherwise the result is sound, complete and strictly ascending; no weekdays gives no dates |
| RecurringDates.DayStartAfterDayEndIff | src/utils/generate-date.ts:27-32 | the start of day s is after the end of day e iff s > e |
| RecurringDates.WeekLongRangeHitsEveryWeekday | src/utils/generate-date.ts:35-41 | a range of at least seven days yields a date for each requested weekday |
| ClassScheduling.CheckInstructorAndCategory | src/routes/classes/create-class.ts:48-74 | unknown instructor, then a student instructor, then an unknown category are rejected, in that order |
| ClassScheduling.CreateClass | src/routes/classes/create-class.ts:34-126 | the class is created iff the gates pass, start < end and start >= now; otherwise the first failing gate's error comes back (instructor missing, then a student as instructor, then category missing), then EndsBeforeStart, then StartsInPast, each 400; the record carries the request's fields with capacity defaulting to 10; initialStatus is never finished, and is in-progress iff start = now |
| ClassScheduling.InitialStatusIsPhase | src/routes/classes/create-class.ts:98-106 | the initialStatus computation agrees with getClassStatus |
| ClassScheduling.CreateClassRejectsEmptyWindow | src/routes/classes/create-class.ts:83-87 | a window with end <= start is rejected with 400 |
| ClassScheduling.BulkCapacity | src/routes/classes/create-class-bulk.ts:98 | capacity is 10 when absent and 20 when 0; any other value is kept; never 0 |
| ClassScheduling.BuildRecords | src/routes/classes/create-class-bulk.ts:89-100 | one record per date, in order, with that date and its times; all records share title, description, instructor, category and capacity |
| ClassScheduling.CreateClassBulk | src/routes/classes/create-class-bulk.ts:37-111 | gate errors come first; start after end becomes a 500 via the error handler; no generated dates gives 400; the request succeeds iff the gates pass, start <= end and some day matches; success inserts the records of the generated dates |
| ClassScheduling.BulkInsertsTheSeries | src/routes/classes/create-class-bulk.ts:77-105 | the inserted classes are exactly the in-range days with a requested weekday, ascending, all with the bulk capacity |
| ClassScheduling.BulkAcceptsInvertedWindow | src/routes/classes/create-class-bulk.ts:89-105 | the bulk route inserts a class that ends before it starts |
| VerificationCode.ParseToDecimal | src/lib/verification.ts:6 | reading the decimal numeral of n gives n back |
| VerificationCode.ToDecimal | src/lib/verification.ts:6 | `n.toString()` is a non-empty string of digits without a leading zero unless it is "0" |
| VerificationCode.PadStart | src/lib/verification.ts:6 | `padStart` yields max(len, \|s\|) characters: the fill characters, then `s` unchanged |
| VerificationCode.DecimalLength | src/lib/verification.ts:5-6 | a number below 10^len has at most len digits |
| VerificationCode.ParseIgnoresLeadingZeros | src/lib/verification.ts:6 | zero padding does not change a numeral's value |
| VerificationCode.GenerateNumericCode | src/lib/verification.ts:3-7 | a range error iff 10^len >= 2^48; otherwise, for the draw n < 10^len, the code has len characters (1 when len = 0), all decimal digits, and reads back as n |
| VerificationCode.DefaultCodeHasSixDigits | src/lib/verification.ts:3-5 | the default length draws below 10^6 without a range error and yields six characters |
| VerificationCode.LongestCode | src/lib/verification.ts:5 | the random range 10^len is accepted iff len <= 14 |
| EmailConfirmation.ActivateAccount | src/routes/auth/activate-account.ts:19-67 | unknown email gives 400; no unconsumed, unexpired confirmation of the user gives 400; a mismatch against the first valid confirmation gives 400; success consumes exactly that first valid confirmation; only success changes state, consuming that confirmation and activating that user together, and nothing else |
| EmailConfirmation.FindAccount | src/routes/auth/activate-account.ts:22-28 | the account found has the email, and none is found iff no account has it |
| EmailConfirmation.FindValid | src/routes/auth/activate-account.ts:32-41 | the confirmation found belongs to the user, is unconsumed and unexpired, and none is found iff no such confirmation exists |
| EmailConfirmation.ConsumedConfirmationIsSpent | src/routes/auth/activate-account.ts:32-58 | once a confirmation has activated an account, no later attempt can use it again |
| EmailConfirmation.ActivateKeepsAtMostOneValid | src/routes/auth/activate-account.ts:54-64 | activation keeps every user at no more than one valid confirmation |
| EmailConfirmation.ResendCode | src/routes/auth/resend-code.ts:21-61 | unknown email gives 400; an outstanding valid confirmation gives 200 with no change; otherwise exactly one unconsumed confirmation is appended, expiring 10 minutes after now, and the reply is 200 iff the mail is sent and 500 iff the send fails, the appended row staying in both cases |
| EmailConfirmation.FailedSendSilencesResend | src/routes/auth/resend-code.ts:45-58 | after a failed send, every resend within the code's ten minutes answers 200 with no change and sends nothing |
| EmailConfirmation.ResendTwiceIssuesAtMostOne | src/routes/auth/resend-code.ts:34-56 | whether or not the first mail was sent, a second resend at the same instant changes nothing, so two calls add at most one confirmation |
| EmailConfirmation.ResendKeepsAtMostOneValid | src/routes/auth/resend-code.ts:34-56 | resending never gives a user a second valid confirmation |

## Findings

| source | as written | input that shows it | evidently intended | confidence | as-written member | corrected member |
|---|---|---|---|---|---|---|
| src/routes/checkin/create-checkin.ts:86-96 | a cancelled row is set back to pending without counting the class's occupied places | capacity 1; user 1 holds a done row; user 2 holds a cancelled row; user 2 checks in again before the start | a reactivation takes a place like a fresh check-in, so it is refused when the class is full | medium; not executed. The cancelled row cannot come from these handlers (`HandlersNeverWriteCancelled`); it needs data written elsewhere, such as the seed script's cancelled check-ins (src/database/seed.ts:234-237) | CheckinRoutes.ReactivationCanOverfill | CheckinRoutes.CheckedCreateKeepsCapacity |

## Left out

- Database access, SQL and transactions. The store is a sequential value. The capacity count and the insert of `create-checkin` are separate statements and can race under concurrency. The model says nothing about that race; its invariants hold for sequential execution only.
- Time zones. `fromZonedTime`, `parseISO`, `startOfDay`/`endOfDay` and local-time parsing become plain arithmetic on day ordinals and minutes in `Calendar`. No zone offset or daylight-saving shift is applied.
- HTTP plumbing: request validation, reply messages and the generic error handler. Reply kinds stand for the messages. `forSelf` records which of the two success messages is sent.
- Crypto, JWT, randomness and mail. bcrypt is a parameter. The hash of a new code and the random draw are parameters. The verification email's content is not modelled; only whether the mail service's call succeeded is, as a parameter of `ResendCode`.
- Unreachable checks are not modelled. `create-checkin.ts:74-78` re-tests the phase after line 53 has already required not-started. `cancel-checkin.ts:85-89` re-tests a student acting on someone else, which `allowed` has already denied.
- The `done: false` column that reactivation writes is not modelled. The table definition has no such column.
- `confirm-checkin`, the reactivation in `create-checkin` (lines 88-91), `cancel-checkin`, and `activate-account` (src/routes/auth/activate-account.ts:55-63, the confirmation and the user each by id) all write by `where` clause. The model rewrites the row found, or deletes every row of the pair. Under unique ids and pairs these agree. The auth store has no uniqueness predicate for confirmation or user ids; there the model rewrites only the found index, where the database would rewrite every row sharing its id. Where a query may return several rows, the model takes the first in table order.
- `get-class-by-id` also inner-joins the instructor's belt, and joins each check-in with its user and that user's belt. Belts are not modelled: every user has one by a non-null foreign key. The model counts every check-in row of the class. That agrees with the join whenever the foreign keys hold, and `HandlersKeepForeignKeys` shows that the check-in handlers keep them. A class with a null instructor id is not modelled, because ids here are never null. The student list and the instructor and category details of the reply are not modelled.
- ClassStatistics.OccupancyRate: rounds the exact rational 100·total/capacity half up. It does not claim bit-exact agreement with `Math.round` on JavaScript doubles.
- `buildCategoryFilter` also drops an empty-string category id. Identifiers here are naturals, so that case does not arise.
- `generateClassDates` raises on a missing date. The bulk route's request schema always supplies both dates, so from that route only the start-after-end error reaches the error handler (500).
- The bulk route's `date` field is unused by the source and not modelled.
- The class-list routes that would apply the filters, and every other read-only route, are not modelled. The same goes for profile, login and register mutations, avatar upload, and the stale duplicate routes.
