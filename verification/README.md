# Leave-management backend: date ranges and batch ingest

This project models the logic of a small leave-request server: employees
apply for Annual, Sick or Emergency leave, and an external automation
posts batches of applications. Two parts of the server carry real logic,
and both are modelled as pure Dafny functions with proved contracts.

- **Date-range helpers** (`DateUtils`, date_utils.dfy). A range is valid
  when its end is not before its start. The inclusive day count is
  `ceil(|end - start| / day) + 1`. Dates are integer millisecond
  timestamps and a day is 86 400 000 ms, so the ceiling is exact integer
  arithmetic.
- **The leave document** (`LeaveModel`, leave_model.dfy). This covers the
  type and status enumerations, the request as posted, schema validation,
  the Pending default and the pre-save hook that derives `days`. It also
  defines the store invariant: no two records of one employee overlap.
- **Batch ingest** (`BatchIngest`, batch_ingest.dfy). `POST
  /api/leaves/batch` is a left fold over the posted requests that threads
  the store, a `seq<Leave>` in insertion order. Each item goes through the
  range check, the duplicate query (closed-interval overlap with any
  record of the same employee, whatever its status), and then save. The
  item lands in exactly one of `success` or `failures`. `IngestBatch` is
  the imperative loop of the handler, proved equal to the fold.
- **Reports** (`Reports`, reports.dfy). These are the counts of `GET
  /api/stats` and the per-employee totals of `GET
  /api/employees/:employeeId/summary`.

A few behaviours of the code are easy to misread, and the model follows
the code in each:
- `isValidDateRange` is documented as "end date is after start date", but
  it compares with `>=` (server/utils/dateUtils.js:11), so a range of one
  instant is valid.
- The day count rounds a partial day up (`Math.ceil`,
  server/utils/dateUtils.js:24) and then adds one for the inclusive end.
- The duplicate query has no status filter (server/app.js:163-172), so a
  Rejected record blocks a new application as much as a Pending one.
  `StatusNeverMatters` proves that status plays no part.
- The summary handler's comments promise the most recent name and records,
  but its code reads the records in store order; see Findings.

## Model

| member | source | states |
|---|---|---|
| DateUtils.CeilDays | server/utils/dateUtils.js:24 | `Math.ceil(ms / day)` is the fewest whole days covering `ms`: `ms <= q*day < ms + day` |
| DateUtils.CalculateDays | server/utils/dateUtils.js:20-26 | the count is at least 1 and is bracketed by the distance: `(n-2) days < abs(end-start) <= (n-1) days` |
| DateUtils.IsValidDateRange | server/utils/dateUtils.js:8-12 | a range is valid exactly when the signed distance from start to end equals the unsigned distance `calculateDays` measures, i.e. end is not before start |
| DateUtils.ValidRangeIsTotalPreorder | server/utils/dateUtils.js:8-12 | a one-instant range is valid; a range or its reverse is always valid; both are valid only when start == end |
| DateUtils.CalculateDaysUnique | server/utils/dateUtils.js:23-24 | the bracketing determines the count: any `n` bracketing the distance equals `calculateDays` |
| DateUtils.CalculateDaysIsLeastCover | server/utils/dateUtils.js:23-24 | the count is the least `n >= 1` whose `n - 1` days cover the distance |
| DateUtils.CalculateDaysSingleInstant | server/utils/dateUtils.js:23-24 | `calculateDays(t, t) == 1` |
| DateUtils.CalculateDaysSymmetric | server/utils/dateUtils.js:23 | swapping start and end gives the same count, because of `Math.abs` |
| DateUtils.CalculateDaysAligned | server/utils/dateUtils.js:24 | endpoints exactly `k` days apart, in either order, give `k + 1` |
| DateUtils.CalculateDaysWithinOneDay | server/utils/dateUtils.js:24 | a positive distance of at most one day gives 2: part of a day rounds up |
| DateUtils.CalculateDaysMonotone | server/utils/dateUtils.js:23-24 | a larger distance never gives a smaller count |
| LeaveModel.ParseLeaveType | server/app.js:40-44 | the `leaveType` enum accepts exactly the three schema names, and each is read back as the type it names |
| LeaveModel.ParseStatus | server/app.js:53-57 | the `status` enum accepts exactly Pending, Approved and Rejected, and each is read back as the status it names |
| LeaveModel.EnumNamesRoundTrip | server/app.js:40-57 | parsing the schema name of any type or status returns that type or status |
| LeaveModel.ValidationErrors | server/app.js:29-57 | validation reports nothing exactly when the id and name are non-empty, the type is in its enum and a given status is in its enum |
| LeaveModel.Save | server/app.js:29-73 | save fails exactly when validation reports errors; a saved record copies the request's fields, defaults status to Pending when none is given, and has `days == calculateDays(start, end)` |
| LeaveModel.SaveIgnoresCallerDays | server/app.js:68-73 | whatever `days` the request carries, the saved document is the same |
| LeaveModel.ForEmployee | server/app.js:247 | `find({ employeeId })` returns exactly the store's records with that id |
| LeaveModel.ForEmployeeOfOne | server/app.js:247 | over a one-record store, the employee query returns that record exactly when its id matches |
| LeaveModel.ForEmployeeAppend | server/app.js:247 | the employee query over `a + b` is the query over `a` followed by the query over `b`: store order and repeated records are kept |
| BatchIngest.Message | server/app.js:150-180 | the two fixed failure messages: 'End date must be after or equal to start date' and 'Duplicate leave application' |
| BatchIngest.Matches | server/app.js:163-172 | a stored record matches the duplicate filter exactly when it clashes, in the sense of the no-overlap store invariant, with a record carrying the new employee id and range |
| BatchIngest.MatchesIsClashWithSaved | server/app.js:163-190 | for a request that saves, the duplicate filter matches a stored record exactly when that record clashes with the record the request would save, so the query enforces the store invariant |
| BatchIngest.HasConflict | server/app.js:163-174 | some stored record matches exactly when some record returned by the employee query overlaps the new range |
| BatchIngest.FindOne | server/app.js:163-172 | `findOne` returns the first record matching the overlap filter, and returns none exactly when no record matches |
| BatchIngest.ProcessItem | server/app.js:146-197 | an item fails with InvalidRange iff end < start; it fails with Duplicate iff its range is valid and a same-employee stored record overlaps it; it is accepted iff neither holds and save succeeds; a save failure carries exactly the validation errors; a failure keeps the posted request |
| BatchIngest.Run | server/app.js:145-198 | the fold puts every item in exactly one list, so success + failures == number of requests; the final store is the old store followed by the successes |
| BatchIngest.IngestBatch | server/app.js:136-209 | the handler's loop returns the same `success` and `failures` lists as the fold; `successCount` and `failureCount` are their lengths and add up to the number of requests; the store afterwards is the old store followed by `success` |
| BatchIngest.OutcomeOfItem | server/app.js:145-191 | item `i` is checked against the store as items `0..i-1` left it |
| BatchIngest.RunSplitsOutcomes | server/app.js:139-198 | `success` and `failures` are exactly the accepted and the refused items, each in input order |
| BatchIngest.FailureKeepsRequest | server/app.js:151-196 | every failure entry holds its own request; every accepted item is that request as saved |
| BatchIngest.ItemEffectOnStore | server/app.js:150-191 | a refused item leaves the store unchanged; an accepted one appends exactly its saved record |
| BatchIngest.RunStoreGrows | server/app.js:145-191 | the store only grows during a batch: an earlier state is a prefix of every later one |
| BatchIngest.AcceptedDoesNotClash | server/app.js:163-180 | an accepted item overlaps no stored record of the same employee |
| BatchIngest.RunPreservesNoClashes | server/app.js:163-191 | if no two same-employee records overlap before a batch, none overlap after it |
| BatchIngest.RunSavesWellFormed | server/app.js:183-190 | every record a batch saves has a valid range and `days == calculateDays(start, end)` |
| BatchIngest.LaterOverlappingItemIsDuplicate | server/app.js:145-190 | once item `i` is accepted, a later valid item of the same employee that overlaps it fails as a duplicate |
| BatchIngest.OtherEmployeesNeverBlock | server/app.js:163-165 | an item's outcome depends only on its own employee's records |
| BatchIngest.StatusNeverMatters | server/app.js:163-172 | changing a stored record's status never changes an item's outcome: Rejected records still block |
| BatchIngest.MatchedIsDuplicate | server/app.js:163-180 | a valid item that matches any stored record is refused as a duplicate |
| BatchIngest.SharedBoundaryIsDuplicate | server/app.js:167-170 | ranges that share only a boundary instant count as overlapping |
| Reports.DaysOrZero | server/app.js:254 | a record without `days` adds 0, and a record saved with derived days adds `calculateDays(start, end) >= 1` |
| Reports.SumDays | server/app.js:254 | the `reduce` total is non-negative when no record's contribution is negative |
| Reports.SumDaysAppend | server/app.js:254 | the total over `a + b` is the total over `a` plus the total over `b` |
| Reports.OfType | server/app.js:255-263 | the type filter keeps exactly the records of that type |
| Reports.OfTypeOfOne | server/app.js:255-263 | over a single record, the type filter keeps it exactly when its type matches |
| Reports.OfTypeAppend | server/app.js:255-263 | the type filter over `a + b` is the filter over `a` followed by the filter over `b`: order and repetitions are kept |
| Reports.CountStatus | server/app.js:214-217 | a status count is at most the number of records, and is zero exactly when no record has that status |
| Reports.CountType | server/app.js:220-222 | a type count is at most the number of records, and is zero exactly when no record has that type |
| Reports.CountStatusIsMultiplicity | server/app.js:214-217 | `countDocuments({ status })` is the multiplicity of that status in the multiset of the records' statuses |
| Reports.CountTypeIsMultiplicity | server/app.js:220-222 | `countDocuments({ leaveType })` is the multiplicity of that type in the multiset of the records' types |
| Reports.DaysSplitByType | server/app.js:254-263 | annual + sick + emergency days == total days |
| Reports.StatusCountsPartition | server/app.js:214-217 | pending + approved + rejected == number of records |
| Reports.TypeCountsPartition | server/app.js:220-222 | annual + sick + emergency == number of records |
| Reports.CountStatusAppend | server/app.js:214-217 | a status count over an appended store is the sum of the counts over its parts |
| Reports.SumDaysAtLeastCount | server/app.js:254 | records whose days are derived from their dates contribute at least one day each |
| Reports.GetStats | server/app.js:212-240 | total is the number of records; each status and type count is the multiplicity of that value among the records' statuses or types; the status counts and the type counts each add up to the total |
| Reports.RunSavesPending | server/app.js:185-190 | when no request names a status, every record a batch saves is Pending |
| Reports.AllPendingCounts | server/app.js:215-217 | in a list of Pending records, all count as pending and none as approved or rejected |
| Reports.BatchStats | server/app.js:212-217 | a batch of requests without status adds its successes to the total and the pending count and leaves the approved and rejected counts unchanged |
| Reports.Newest | server/app.js:278 | corrected (intended) behaviour, see Findings: the last `min(n, len)` records, newest first, each taken from the input |
| Reports.NoRecordsIffEmpty | server/app.js:247-251 | the employee query is empty exactly when no stored record has that id |
| Reports.SummaryAsWritten | server/app.js:243-283 | as written: 404 iff the employee has no record; otherwise the total equals the number of records, the total days equal the sum, each type's days are the sum over that type's records and the three add up to the total, the name comes from the first record, and `recentLeaves` is the first `min(5, n)` records in store order |
| Reports.EmployeeSummary | server/app.js:243-283 | corrected (intended) behaviour, see Findings: 404 iff the employee has no record; otherwise the total equals the number of records, the total days equal the sum, each type's days are the sum over that type's records and the three add up to the total, `recentLeaves` has `min(5, n)` of the employee's records newest first, and the name comes from the newest record |
| Reports.SavedRecordLeadsSummary | server/app.js:243-283 | corrected (intended) behaviour, see Findings: right after a record is saved, the summary reports its name, lists it first, and its totals grow by one record and by its days |
| Reports.SummaryDaysAtLeastLeaves | server/app.js:254 | over records with derived days, total days are at least the number of records |
| Reports.ForEmployeeOfOwnRecords | server/app.js:247 | a store holding only the employee's records is returned whole by the employee query |
| Reports.AsWrittenSummaryOmitsNewest | server/app.js:265-278 | with more than five records, the handler as written omits the newest record and takes the name from the oldest; the corrected summary lists the newest record first |
| Reports.AsWrittenSummaryReportsOldest | server/app.js:265-278 | six consecutive one-day records, the newest under a corrected name: the as-written handler reports the old name and leaves out the newest record |

## Left out

- The Express setup, middleware, static serving, error-handler import,
  `dotenv` configuration and `app.listen` (server/app.js:1-18,285-305).
  These are process bootstrap and HTTP plumbing.
- The MongoDB connection, `GET /api/leaves` with its `createdAt` sort and
  `_id`→`id` transform, and the raw debug route (server/app.js:20-26,80-94,120-133).
  The store is abstracted as a sequence in insertion order.
- `GET /api/leaves/employee/:employeeId` (server/app.js:95-108). It is a
  plain query; its filter is `LeaveModel.ForEmployee`.
- `PUT /api/rejectleaves/:employeeId` (server/app.js:109-119). It passes a
  filter object where `findByIdAndUpdate` expects an id, and it never
  answers on success. It has no coherent behaviour to state, and no status
  state machine is invented for it.
- Parsing of date strings into `Date`, and invalid-date (NaN) behaviour.
  These belong to the JavaScript runtime. Dates arrive as integer
  timestamps.
- DateUtils.CalculateDays: the JavaScript division is floating point; the
  model uses exact integer ceiling. The two agree except for distances
  beyond about 2^26 days, where the double quotient loses its fraction.
- `trim` on `employeeId` and `name`. Identifiers are taken as already
  trimmed, and "required" means non-empty.
- `createdAt` (a wall-clock default) and the generated `_id`. Recency is
  the position in the store.
- Failures of the database itself inside the loop's `try`
  (server/app.js:192-197). Only the validation failures of `save()` are
  modelled, as `SaveFailed`.
- BatchIngest.Message: a validation failure's full Mongoose message text is
  not reproduced. Only its leading words are, and the failing paths are
  kept as `FieldError` values.
- The HTTP 500 path of the batch and report handlers. It is reached only
  when the database or request body fails.
- Races between concurrent batches. The handler is modelled as one
  sequential run.

## Findings

| source | as written | input that shows it | evidently intended | confidence | as-written member | corrected member |
|---|---|---|---|---|---|---|
| server/app.js:265-278 | `leaves` comes from `find({ employeeId })` with no sort. `leaves[0].name` and `leaves.slice(0, 5)` therefore read the oldest records in natural (insertion) order. | Employee E1 has six one-day records on consecutive days, and only the newest carries the corrected name "Alice Lee". The summary reports "A. Lee", and the newest record is missing from `recentLeaves`. | The comments say the name comes from the most recent record and that the five most recent leaves are returned. So: the newest record's name, and the last five records newest first. | medium: it assumes natural order is insertion order; not executed | Reports.SummaryAsWritten, Reports.AsWrittenSummaryReportsOldest | Reports.EmployeeSummary, Reports.Newest, Reports.SavedRecordLeadsSummary |
