/**
 * The two read-only aggregations of server/app.js: `GET /api/stats` (counts
 * by status and by type over every record) and
 * `GET /api/employees/:employeeId/summary` (day totals and the latest records
 * of one employee). The store is a sequence in insertion order, so a later
 * position is a more recently created record.
 */
module Reports {
  import opened Wrappers
  import opened DateUtils
  import opened LeaveModel
  import BatchIngest

  function Min(a: int, b: int): int {
    if a <= b then a else b
  }

  /**
   * `leave.days || 0`: a missing day count adds nothing, and a record saved
   * with its derived count adds the days its range spans.
   */
  function DaysOrZero(l: Leave): (d: int)
    ensures l.days.None? ==> d == 0
    ensures WellFormed(l) ==> d == CalculateDays(l.startDate, l.endDate) >= 1
  {
    match l.days
    case None => 0
    case Some(d) => d
  }

  /** The `reduce` that adds up `days` over a list of records. */
  function SumDays(ls: seq<Leave>): (total: int)
    ensures (forall k :: 0 <= k < |ls| ==> DaysOrZero(ls[k]) >= 0) ==> total >= 0
  {
    if |ls| == 0 then 0 else DaysOrZero(ls[0]) + SumDays(ls[1..])
  }

  /** The day total of a concatenation is the sum of the parts' totals. */
  lemma {:induction false} SumDaysAppend(a: seq<Leave>, b: seq<Leave>)
    ensures SumDays(a + b) == SumDays(a) + SumDays(b)
  {
    if |a| == 0 {
      assert a + b == b;
    } else {
      assert (a + b)[1..] == a[1..] + b;
      SumDaysAppend(a[1..], b);
    }
  }

  /** `leaves.filter(leave => leave.leaveType === t)`. */
  function OfType(ls: seq<Leave>, t: LeaveType): (r: seq<Leave>)
    ensures |r| <= |ls|
    ensures forall l :: l in r <==> l in ls && l.leaveType == t
  {
    if |ls| == 0 then []
    else if ls[0].leaveType == t then [ls[0]] + OfType(ls[1..], t)
    else OfType(ls[1..], t)
  }

  /** The type filter over a single record keeps it exactly when its type matches. */
  lemma OfTypeOfOne(l: Leave, t: LeaveType)
    ensures OfType([l], t) == if l.leaveType == t then [l] else []
  {
    assert [l][1..] == [];
  }

  /** The type filter distributes over concatenation, keeping order and repetitions. */
  lemma {:induction false} OfTypeAppend(a: seq<Leave>, b: seq<Leave>, t: LeaveType)
    ensures OfType(a + b, t) == OfType(a, t) + OfType(b, t)
  {
    if |a| == 0 {
      assert a + b == b;
    } else {
      assert (a + b)[1..] == a[1..] + b;
      OfTypeAppend(a[1..], b, t);
    }
  }

  /** `countDocuments({ status: s })`. */
  function CountStatus(ls: seq<Leave>, s: Status): (n: nat)
    ensures n <= |ls|
    ensures n == 0 <==> forall k :: 0 <= k < |ls| ==> ls[k].status != s
  {
    if |ls| == 0 then 0 else (if ls[0].status == s then 1 else 0) + CountStatus(ls[1..], s)
  }

  /** `countDocuments({ leaveType: t })`. */
  function CountType(ls: seq<Leave>, t: LeaveType): (n: nat)
    ensures n <= |ls|
    ensures n == 0 <==> forall k :: 0 <= k < |ls| ==> ls[k].leaveType != t
  {
    if |ls| == 0 then 0 else (if ls[0].leaveType == t then 1 else 0) + CountType(ls[1..], t)
  }

  /** The status column of a list of records. */
  function Statuses(ls: seq<Leave>): (r: seq<Status>)
    ensures |r| == |ls|
    ensures forall k :: 0 <= k < |ls| ==> r[k] == ls[k].status
  {
    seq(|ls|, k requires 0 <= k < |ls| => ls[k].status)
  }

  /** The leave-type column of a list of records. */
  function Types(ls: seq<Leave>): (r: seq<LeaveType>)
    ensures |r| == |ls|
    ensures forall k :: 0 <= k < |ls| ==> r[k] == ls[k].leaveType
  {
    seq(|ls|, k requires 0 <= k < |ls| => ls[k].leaveType)
  }

  /** The status count is the multiplicity of the status in the status column. */
  lemma {:induction false} CountStatusIsMultiplicity(ls: seq<Leave>, s: Status)
    ensures CountStatus(ls, s) == multiset(Statuses(ls))[s]
  {
    if |ls| > 0 {
      assert Statuses(ls) == [ls[0].status] + Statuses(ls[1..]);
      CountStatusIsMultiplicity(ls[1..], s);
    }
  }

  /** The type count is the multiplicity of the type in the leave-type column. */
  lemma {:induction false} CountTypeIsMultiplicity(ls: seq<Leave>, t: LeaveType)
    ensures CountType(ls, t) == multiset(Types(ls))[t]
  {
    if |ls| > 0 {
      assert Types(ls) == [ls[0].leaveType] + Types(ls[1..]);
      CountTypeIsMultiplicity(ls[1..], t);
    }
  }

  /** The per-type day totals add up to the overall total, since every record has one of the three types. */
  lemma {:induction false} DaysSplitByType(ls: seq<Leave>)
    ensures SumDays(OfType(ls, Annual)) + SumDays(OfType(ls, Sick)) + SumDays(OfType(ls, Emergency)) == SumDays(ls)
  {
    if |ls| > 0 {
      DaysSplitByType(ls[1..]);
    }
  }

  /** Every record has exactly one status. */
  lemma {:induction false} StatusCountsPartition(ls: seq<Leave>)
    ensures CountStatus(ls, Pending) + CountStatus(ls, Approved) + CountStatus(ls, Rejected) == |ls|
  {
    if |ls| > 0 {
      StatusCountsPartition(ls[1..]);
    }
  }

  /** Every record has exactly one leave type. */
  lemma {:induction false} TypeCountsPartition(ls: seq<Leave>)
    ensures CountType(ls, Annual) + CountType(ls, Sick) + CountType(ls, Emergency) == |ls|
  {
    if |ls| > 0 {
      TypeCountsPartition(ls[1..]);
    }
  }

  /** Counting over an appended store adds the counts of the two parts. */
  lemma {:induction false} CountStatusAppend(a: seq<Leave>, b: seq<Leave>, s: Status)
    ensures CountStatus(a + b, s) == CountStatus(a, s) + CountStatus(b, s)
  {
    if |a| > 0 {
      CountStatusAppend(a[1..], b, s);
      assert (a + b)[1..] == a[1..] + b;
    } else {
      assert a + b == b;
    }
  }

  /** Records whose day count is derived from their dates contribute at least one day each. */
  lemma {:induction false} SumDaysAtLeastCount(ls: seq<Leave>)
    requires forall k :: 0 <= k < |ls| ==> WellFormed(ls[k])
    ensures SumDays(ls) >= |ls|
  {
    if |ls| > 0 {
      assert WellFormed(ls[0]);
      SumDaysAtLeastCount(ls[1..]);
    }
  }

  /** The body of `GET /api/stats`. */
  datatype Stats = Stats(
    total: nat,
    pending: nat,
    approved: nat,
    rejected: nat,
    annual: nat,
    sick: nat,
    emergency: nat)

  /**
   * `GET /api/stats`: each count is the number of records carrying that
   * status or type, and the status counts and the type counts each
   * partition the total.
   */
  function GetStats(store: seq<Leave>): (s: Stats)
    ensures s.total == |store|
    ensures s.pending == multiset(Statuses(store))[Pending]
    ensures s.approved == multiset(Statuses(store))[Approved]
    ensures s.rejected == multiset(Statuses(store))[Rejected]
    ensures s.annual == multiset(Types(store))[Annual]
    ensures s.sick == multiset(Types(store))[Sick]
    ensures s.emergency == multiset(Types(store))[Emergency]
    ensures s.pending + s.approved + s.rejected == s.total
    ensures s.annual + s.sick + s.emergency == s.total
  {
    StatusCountsPartition(store);
    TypeCountsPartition(store);
    CountStatusIsMultiplicity(store, Pending);
    CountStatusIsMultiplicity(store, Approved);
    CountStatusIsMultiplicity(store, Rejected);
    CountTypeIsMultiplicity(store, Annual);
    CountTypeIsMultiplicity(store, Sick);
    CountTypeIsMultiplicity(store, Emergency);
    Stats(|store|,
          CountStatus(store, Pending), CountStatus(store, Approved), CountStatus(store, Rejected),
          CountType(store, Annual), CountType(store, Sick), CountType(store, Emergency))
  }

  /** When no request of a batch names a status, every record it saves is Pending. */
  lemma {:induction false} RunSavesPending(store: seq<Leave>, reqs: seq<Request>)
    requires forall i :: 0 <= i < |reqs| ==> reqs[i].status.None?
    ensures forall k :: 0 <= k < |BatchIngest.Run(store, reqs).success| ==>
      BatchIngest.Run(store, reqs).success[k].status == Pending
    decreases |reqs|
  {
    if |reqs| > 0 {
      RunSavesPending(store, reqs[..|reqs| - 1]);
    }
  }

  /**
   * A batch of requests that name no status adds its successes to the total
   * and to the Pending count, and leaves the Approved and Rejected counts as
   * they were.
   */
  lemma BatchStats(store: seq<Leave>, reqs: seq<Request>)
    requires forall i :: 0 <= i < |reqs| ==> reqs[i].status.None?
    ensures var before := GetStats(store);
      var r := BatchIngest.Run(store, reqs);
      var after := GetStats(r.store);
      && after.total == before.total + |r.success|
      && after.pending == before.pending + |r.success|
      && after.approved == before.approved
      && after.rejected == before.rejected
  {
    var r := BatchIngest.Run(store, reqs);
    RunSavesPending(store, reqs);
    AllPendingCounts(r.success);
    CountStatusAppend(store, r.success, Pending);
    CountStatusAppend(store, r.success, Approved);
    CountStatusAppend(store, r.success, Rejected);
  }

  /** In a list of Pending records, every record counts as Pending and none as anything else. */
  lemma {:induction false} AllPendingCounts(ls: seq<Leave>)
    requires forall k :: 0 <= k < |ls| ==> ls[k].status == Pending
    ensures CountStatus(ls, Pending) == |ls|
    ensures CountStatus(ls, Approved) == 0
    ensures CountStatus(ls, Rejected) == 0
  {
    if |ls| > 0 {
      AllPendingCounts(ls[1..]);
    }
  }

  /** The body of `GET /api/employees/:employeeId/summary`. */
  datatype Summary = Summary(
    employeeId: string,
    name: string,
    totalLeaves: nat,
    totalDays: int,
    annualDays: int,
    sickDays: int,
    emergencyDays: int,
    recentLeaves: seq<Leave>)

  /** The summary endpoint answers 404 when the employee has no record. */
  datatype SummaryResponse = NotFound | Found(summary: Summary)

  /** The last `min(n, |ls|)` records of `ls`, newest first. */
  function Newest(ls: seq<Leave>, n: nat): (r: seq<Leave>)
    ensures |r| == Min(n, |ls|)
    ensures forall i :: 0 <= i < |r| ==> r[i] == ls[|ls| - 1 - i]
    ensures forall l :: l in r ==> l in ls
  {
    if n == 0 || |ls| == 0 then []
    else [ls[|ls| - 1]] + Newest(ls[..|ls| - 1], n - 1)
  }

  /** The employee has no record in the store. */
  predicate NoRecords(store: seq<Leave>, employeeId: string) {
    forall k :: 0 <= k < |store| ==> store[k].employeeId != employeeId
  }

  lemma NoRecordsIffEmpty(store: seq<Leave>, employeeId: string)
    ensures NoRecords(store, employeeId) <==> |ForEmployee(store, employeeId)| == 0
  {
  }

  /**
   * The summary handler as written: the name is read from `leaves[0]` and
   * `recentLeaves` is `leaves.slice(0, 5)`, both in store order and with no
   * sort, so they come from the OLDEST records.
   */
  function SummaryAsWritten(employeeId: string, store: seq<Leave>): (r: SummaryResponse)
    ensures r.NotFound? <==> NoRecords(store, employeeId)
    ensures r.Found? ==>
      var leaves := ForEmployee(store, employeeId);
      && r.summary.employeeId == employeeId
      && r.summary.totalLeaves == |leaves| > 0
      && r.summary.totalDays == SumDays(leaves)
      && r.summary.annualDays == SumDays(OfType(leaves, Annual))
      && r.summary.sickDays == SumDays(OfType(leaves, Sick))
      && r.summary.emergencyDays == SumDays(OfType(leaves, Emergency))
      && r.summary.annualDays + r.summary.sickDays + r.summary.emergencyDays == r.summary.totalDays
      && r.summary.name == leaves[0].name
      && |r.summary.recentLeaves| == Min(5, |leaves|)
      && forall i :: 0 <= i < |r.summary.recentLeaves| ==> r.summary.recentLeaves[i] == leaves[i]
  {
    NoRecordsIffEmpty(store, employeeId);
    var leaves := ForEmployee(store, employeeId);
    if |leaves| == 0 then NotFound
    else
      DaysSplitByType(leaves);
      Found(Summary(employeeId, leaves[0].name, |leaves|, SumDays(leaves),
                    SumDays(OfType(leaves, Annual)), SumDays(OfType(leaves, Sick)),
                    SumDays(OfType(leaves, Emergency)), leaves[..Min(5, |leaves|)]))
  }

  /**
   * The summary handler as its comments describe it: totals over the
   * employee's records, the name from the most recent record and the five
   * most recent records, newest first.
   */
  function EmployeeSummary(employeeId: string, store: seq<Leave>): (r: SummaryResponse)
    ensures r.NotFound? <==> NoRecords(store, employeeId)
    ensures r.Found? ==>
      var leaves := ForEmployee(store, employeeId);
      && r.summary.employeeId == employeeId
      && r.summary.totalLeaves == |leaves| > 0
      && r.summary.totalDays == SumDays(leaves)
      && r.summary.annualDays == SumDays(OfType(leaves, Annual))
      && r.summary.sickDays == SumDays(OfType(leaves, Sick))
      && r.summary.emergencyDays == SumDays(OfType(leaves, Emergency))
      && r.summary.annualDays + r.summary.sickDays + r.summary.emergencyDays == r.summary.totalDays
      && r.summary.name == leaves[|leaves| - 1].name
      && |r.summary.recentLeaves| == Min(5, |leaves|)
      && (forall i :: 0 <= i < |r.summary.recentLeaves| ==> r.summary.recentLeaves[i] == leaves[|leaves| - 1 - i])
      && (forall l :: l in r.summary.recentLeaves ==> l in store && l.employeeId == employeeId)
  {
    NoRecordsIffEmpty(store, employeeId);
    var leaves := ForEmployee(store, employeeId);
    if |leaves| == 0 then NotFound
    else
      DaysSplitByType(leaves);
      var recent := Newest(leaves, 5);
      Found(Summary(employeeId, leaves[|leaves| - 1].name, |leaves|, SumDays(leaves),
                    SumDays(OfType(leaves, Annual)), SumDays(OfType(leaves, Sick)),
                    SumDays(OfType(leaves, Emergency)), recent))
  }

  /**
   * Right after a record of the employee is saved, the intended summary
   * reports that record's name and lists it first, and counts it once more
   * than before.
   */
  lemma SavedRecordLeadsSummary(store: seq<Leave>, l: Leave)
    ensures var r := EmployeeSummary(l.employeeId, store + [l]);
      && r.Found?
      && r.summary.name == l.name
      && r.summary.recentLeaves[0] == l
      && r.summary.totalLeaves == |ForEmployee(store, l.employeeId)| + 1
      && r.summary.totalDays == SumDays(ForEmployee(store, l.employeeId)) + DaysOrZero(l)
  {
    var e := l.employeeId;
    ForEmployeeAppend(store, [l], e);
    ForEmployeeOfOne(l, e);
    SumDaysAppend(ForEmployee(store, e), [l]);
    assert [l][1..] == [];
  }

  /** When the employee's records carry derived day counts, the day total is at least the number of records. */
  lemma SummaryDaysAtLeastLeaves(employeeId: string, store: seq<Leave>)
    requires forall k :: 0 <= k < |store| ==> WellFormed(store[k])
    requires EmployeeSummary(employeeId, store).Found?
    ensures EmployeeSummary(employeeId, store).summary.totalDays >= EmployeeSummary(employeeId, store).summary.totalLeaves
  {
    var leaves := ForEmployee(store, employeeId);
    forall k | 0 <= k < |leaves|
      ensures WellFormed(leaves[k])
    {
      assert leaves[k] in store;
    }
    SumDaysAtLeastCount(leaves);
  }

  /** Filtering a store whose records all belong to the employee keeps it whole. */
  lemma {:induction false} ForEmployeeOfOwnRecords(store: seq<Leave>, employeeId: string)
    requires forall k :: 0 <= k < |store| ==> store[k].employeeId == employeeId
    ensures ForEmployee(store, employeeId) == store
  {
    if |store| > 0 {
      ForEmployeeOfOwnRecords(store[1..], employeeId);
    }
  }

  /**
   * Once an employee has more than five records, the handler as written
   * leaves the newest one out of `recentLeaves` (when it differs from the five
   * oldest) and reports the oldest record's name, where the summary as
   * intended lists the newest first and reports its name.
   */
  lemma AsWrittenSummaryOmitsNewest(employeeId: string, store: seq<Leave>)
    requires |ForEmployee(store, employeeId)| > 5
    requires var leaves := ForEmployee(store, employeeId);
      forall i :: 0 <= i < 5 ==> leaves[i] != leaves[|leaves| - 1]
    ensures SummaryAsWritten(employeeId, store).Found?
    ensures var leaves := ForEmployee(store, employeeId);
      && leaves[|leaves| - 1] !in SummaryAsWritten(employeeId, store).summary.recentLeaves
      && SummaryAsWritten(employeeId, store).summary.name == leaves[0].name
      && EmployeeSummary(employeeId, store).summary.recentLeaves[0] == leaves[|leaves| - 1]
      && EmployeeSummary(employeeId, store).summary.name == leaves[|leaves| - 1].name
  {
  }

  function SampleLeave(name: string, day: int): Leave {
    Leave("E1", name, Annual, day, day, Pending, Some(1))
  }

  /**
   * Six one-day records of employee E1 on consecutive days from `start`, the
   * newest under a corrected spelling of the name: the handler as written
   * reports the old name "A. Lee" and leaves the newest record out of
   * `recentLeaves`, where the intended summary reports "Alice Lee".
   */
  lemma AsWrittenSummaryReportsOldest(start: int)
    ensures
      var store := [SampleLeave("A. Lee", start), SampleLeave("A. Lee", start + Day),
                    SampleLeave("A. Lee", start + 2 * Day), SampleLeave("A. Lee", start + 3 * Day),
                    SampleLeave("A. Lee", start + 4 * Day), SampleLeave("Alice Lee", start + 5 * Day)];
      && SummaryAsWritten("E1", store).Found?
      && SummaryAsWritten("E1", store).summary.name == "A. Lee"
      && store[5] !in SummaryAsWritten("E1", store).summary.recentLeaves
      && EmployeeSummary("E1", store).summary.name == "Alice Lee"
  {
    var store := [SampleLeave("A. Lee", start), SampleLeave("A. Lee", start + Day),
                  SampleLeave("A. Lee", start + 2 * Day), SampleLeave("A. Lee", start + 3 * Day),
                  SampleLeave("A. Lee", start + 4 * Day), SampleLeave("Alice Lee", start + 5 * Day)];
    assert forall i :: 0 <= i < 5 ==> store[i].name == "A. Lee";
    assert store[5].name == "Alice Lee";
    assert forall i :: 0 <= i < 5 ==> store[i] != store[5];
    ForEmployeeOfOwnRecords(store, "E1");
    AsWrittenSummaryOmitsNewest("E1", store);
  }
}
