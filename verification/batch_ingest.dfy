/**
 * The batch-ingest endpoint `POST /api/leaves/batch` of server/app.js: a
 * sequential fold over the posted requests that validates each range, looks
 * for an overlapping record of the same employee, and saves the rest, while
 * collecting every request into exactly one of `success` or `failures`.
 */
module BatchIngest {
  import opened Wrappers
  import opened DateUtils
  import opened LeaveModel

  /** Why one batch item was refused. */
  datatype BatchError =
    | InvalidRange
    | Duplicate
    | SaveFailed(errors: seq<FieldError>)

  /** A refused item: the request as posted and the reason. */
  datatype FailedItem = FailedItem(data: Request, error: BatchError)

  /** What became of one item. */
  datatype Outcome = Accepted(saved: Leave) | Refused(failure: FailedItem)

  /** The store and the two result lists as the loop threads them. */
  datatype BatchState = BatchState(store: seq<Leave>, success: seq<Leave>, failures: seq<FailedItem>)

  /** The JSON body the endpoint answers with. */
  datatype BatchResponse = BatchResponse(
    message: string,
    successCount: nat,
    failureCount: nat,
    success: seq<Leave>,
    failures: seq<FailedItem>)

  /**
   * The `error` string of a failure entry. The two checks of the endpoint have
   * fixed messages; a validation failure carries Mongoose's message, of which
   * only the leading words are rendered here.
   */
  function Message(e: BatchError): (m: string)
    ensures e.InvalidRange? ==> m == "End date must be after or equal to start date"
    ensures e.Duplicate? ==> m == "Duplicate leave application"
  {
    match e
    case InvalidRange => "End date must be after or equal to start date"
    case Duplicate => "Duplicate leave application"
    case SaveFailed(_) => "leaves validation failed"
  }

  /**
   * The filter of the duplicate query: same employee, stored start not after
   * the new end, stored end not before the new start. A stored record matches
   * exactly when it clashes, in the sense of the store invariant, with a
   * record that carries the new employee id and range.
   */
  function Matches(l: Leave, employeeId: string, startDate: int, endDate: int): (m: bool)
    ensures m <==> Clash(l, l.(employeeId := employeeId, startDate := startDate, endDate := endDate))
  {
    l.employeeId == employeeId && RangesOverlap(l.startDate, l.endDate, startDate, endDate)
  }

  /** Some stored record satisfies the duplicate query: some record of the employee overlaps the new range. */
  function HasConflict(store: seq<Leave>, employeeId: string, startDate: int, endDate: int): (c: bool)
    ensures c <==> exists l :: l in ForEmployee(store, employeeId) && RangesOverlap(l.startDate, l.endDate, startDate, endDate)
  {
    exists k :: 0 <= k < |store| && Matches(store[k], employeeId, startDate, endDate)
  }

  /** `Leave.findOne(filter)`: the position of the first stored record the duplicate query matches, if any. */
  function FindOne(store: seq<Leave>, employeeId: string, startDate: int, endDate: int): (r: Option<nat>)
    ensures r.Some? ==> r.value < |store| && Matches(store[r.value], employeeId, startDate, endDate)
    ensures r.Some? ==> forall k :: 0 <= k < r.value ==> !Matches(store[k], employeeId, startDate, endDate)
    ensures r.None? <==> !HasConflict(store, employeeId, startDate, endDate)
  {
    if |store| == 0 then None
    else if Matches(store[0], employeeId, startDate, endDate) then Some(0)
    else
      match FindOne(store[1..], employeeId, startDate, endDate)
      case None => None
      case Some(k) => Some(k + 1)
  }

  /**
   * One pass of the loop body: range check, duplicate query, then save. Any
   * error is captured as the item's failure; nothing is thrown out of the loop.
   */
  function ProcessItem(store: seq<Leave>, req: Request): (o: Outcome)
    ensures o.Refused? ==> o.failure.data == req
    ensures o == Refused(FailedItem(req, InvalidRange)) <==> req.endDate < req.startDate
    ensures o == Refused(FailedItem(req, Duplicate)) <==>
      req.startDate <= req.endDate && HasConflict(store, req.employeeId, req.startDate, req.endDate)
    ensures o.Accepted? <==>
      && req.startDate <= req.endDate
      && !HasConflict(store, req.employeeId, req.startDate, req.endDate)
      && Save(req).Success?
    ensures o.Accepted? ==> o.saved == Save(req).value
    ensures o.Refused? && o.failure.error.SaveFailed? ==> o.failure.error.errors == ValidationErrors(req)
  {
    if !IsValidDateRange(req.startDate, req.endDate) then
      Refused(FailedItem(req, InvalidRange))
    else if FindOne(store, req.employeeId, req.startDate, req.endDate).Some? then
      Refused(FailedItem(req, Duplicate))
    else
      match Save(req)
      case Success(l) => Accepted(l)
      case Failure(errs) => Refused(FailedItem(req, SaveFailed(errs)))
  }

  /** The state after one item: an accepted record is appended to both the store and `success`, a refused one to `failures`. */
  function Apply(st: BatchState, o: Outcome): BatchState {
    match o
    case Accepted(l) => BatchState(st.store + [l], st.success + [l], st.failures)
    case Refused(f) => BatchState(st.store, st.success, st.failures + [f])
  }

  /**
   * The loop over the posted requests, as a fold from the left: each item is
   * checked against the store as the earlier items left it.
   */
  function Run(store: seq<Leave>, reqs: seq<Request>): (r: BatchState)
    ensures |r.success| + |r.failures| == |reqs|
    ensures r.store == store + r.success
    decreases |reqs|
  {
    if |reqs| == 0 then BatchState(store, [], [])
    else
      var prev := Run(store, reqs[..|reqs| - 1]);
      Apply(prev, ProcessItem(prev.store, reqs[|reqs| - 1]))
  }

  /** What became of each item, in input order. */
  function Outcomes(store: seq<Leave>, reqs: seq<Request>): (os: seq<Outcome>)
    ensures |os| == |reqs|
    decreases |reqs|
  {
    if |reqs| == 0 then []
    else
      var prefix := reqs[..|reqs| - 1];
      Outcomes(store, prefix) + [ProcessItem(Run(store, prefix).store, reqs[|reqs| - 1])]
  }

  /** The accepted records of a list of outcomes, in order. */
  function AcceptedOf(os: seq<Outcome>): seq<Leave> {
    if |os| == 0 then []
    else
      var last := os[|os| - 1];
      AcceptedOf(os[..|os| - 1]) + (if last.Accepted? then [last.saved] else [])
  }

  /** The failure entries of a list of outcomes, in order. */
  function RejectedOf(os: seq<Outcome>): seq<FailedItem> {
    if |os| == 0 then []
    else
      var last := os[|os| - 1];
      RejectedOf(os[..|os| - 1]) + (if last.Refused? then [last.failure] else [])
  }

  /**
   * The endpoint: runs the loop over `reqs` against the `existing` store and
   * answers with both lists and their lengths. The store the loop leaves is
   * `existing + r.success`.
   */
  method IngestBatch(existing: seq<Leave>, reqs: seq<Request>) returns (r: BatchResponse)
    ensures r.success == Run(existing, reqs).success
    ensures r.failures == Run(existing, reqs).failures
    ensures r.successCount == |r.success|
    ensures r.failureCount == |r.failures|
    ensures r.successCount + r.failureCount == |reqs|
    ensures Run(existing, reqs).store == existing + r.success
  {
    var stored := existing;
    var success: seq<Leave> := [];
    var failures: seq<FailedItem> := [];
    var i := 0;
    while i < |reqs|
      invariant 0 <= i <= |reqs|
      invariant stored == Run(existing, reqs[..i]).store
      invariant success == Run(existing, reqs[..i]).success
      invariant failures == Run(existing, reqs[..i]).failures
    {
      RunStep(existing, reqs, i + 1);
      var o := ProcessItem(stored, reqs[i]);
      if o.Accepted? {
        stored := stored + [o.saved];
        success := success + [o.saved];
      } else {
        failures := failures + [o.failure];
      }
      i := i + 1;
    }
    assert reqs[..|reqs|] == reqs;
    r := BatchResponse("Batch processing completed", |success|, |failures|, success, failures);
  }

  // ---------------------------------------------------------------------
  // Properties of the fold
  // ---------------------------------------------------------------------

  /** Item `i` is checked against the store as items `0 .. i - 1` left it. */
  lemma {:induction false} OutcomeOfItem(store: seq<Leave>, reqs: seq<Request>, i: nat)
    requires i < |reqs|
    ensures Outcomes(store, reqs)[i] == ProcessItem(Run(store, reqs[..i]).store, reqs[i])
    decreases |reqs|
  {
    var prefix := reqs[..|reqs| - 1];
    var earlier := Outcomes(store, prefix);
    var last := ProcessItem(Run(store, prefix).store, reqs[|reqs| - 1]);
    assert Outcomes(store, reqs) == earlier + [last];
    if i < |reqs| - 1 {
      assert Outcomes(store, reqs)[i] == earlier[i];
      OutcomeOfItem(store, prefix, i);
      assert prefix[..i] == reqs[..i];
      assert prefix[i] == reqs[i];
    } else {
      assert Outcomes(store, reqs)[i] == last;
      assert prefix == reqs[..i];
    }
  }

  /** `success` and `failures` are exactly the accepted and the refused outcomes, each in input order. */
  lemma {:induction false} RunSplitsOutcomes(store: seq<Leave>, reqs: seq<Request>)
    ensures Run(store, reqs).success == AcceptedOf(Outcomes(store, reqs))
    ensures Run(store, reqs).failures == RejectedOf(Outcomes(store, reqs))
    decreases |reqs|
  {
    if |reqs| > 0 {
      var prefix := reqs[..|reqs| - 1];
      RunSplitsOutcomes(store, prefix);
      var os := Outcomes(store, reqs);
      assert os[..|os| - 1] == Outcomes(store, prefix);
    }
  }

  /** Every failure entry carries the request it came from. */
  lemma {:induction false} FailureKeepsRequest(store: seq<Leave>, reqs: seq<Request>, i: nat)
    requires i < |reqs|
    ensures Outcomes(store, reqs)[i].Refused? ==> Outcomes(store, reqs)[i].failure.data == reqs[i]
    ensures Outcomes(store, reqs)[i].Accepted? ==>
      Save(reqs[i]).Success? && Outcomes(store, reqs)[i].saved == Save(reqs[i]).value
  {
    OutcomeOfItem(store, reqs, i);
  }

  /** An accepted item never clashes with the store it was checked against. */
  lemma AcceptedDoesNotClash(store: seq<Leave>, req: Request)
    requires ProcessItem(store, req).Accepted?
    ensures forall k :: 0 <= k < |store| ==> !Clash(store[k], ProcessItem(store, req).saved)
  {
  }

  /** The store invariant survives a batch: if no two same-employee records overlapped before, none do afterwards. */
  lemma {:induction false} RunPreservesNoClashes(store: seq<Leave>, reqs: seq<Request>)
    requires NoClashes(store)
    ensures NoClashes(Run(store, reqs).store)
    decreases |reqs|
  {
    if |reqs| > 0 {
      var prefix := reqs[..|reqs| - 1];
      RunPreservesNoClashes(store, prefix);
      var prev := Run(store, prefix);
      var o := ProcessItem(prev.store, reqs[|reqs| - 1]);
      if o.Accepted? {
        AcceptedDoesNotClash(prev.store, reqs[|reqs| - 1]);
        var s' := prev.store + [o.saved];
        forall i, j | 0 <= i < j < |s'|
          ensures !Clash(s'[i], s'[j])
        {
          if j < |prev.store| {
            assert s'[i] == prev.store[i] && s'[j] == prev.store[j];
          } else {
            assert s'[i] == prev.store[i] && s'[j] == o.saved;
          }
        }
      }
    }
  }

  /** Every record a batch saves is well formed: a non-inverted range and the derived day count. */
  lemma {:induction false} RunSavesWellFormed(store: seq<Leave>, reqs: seq<Request>)
    ensures forall k :: 0 <= k < |Run(store, reqs).success| ==> WellFormed(Run(store, reqs).success[k])
    decreases |reqs|
  {
    if |reqs| > 0 {
      RunSavesWellFormed(store, reqs[..|reqs| - 1]);
    }
  }

  /** Running one more item of the batch applies that item's outcome to the state the shorter prefix left. */
  lemma RunStep(store: seq<Leave>, reqs: seq<Request>, j: nat)
    requires 0 < j <= |reqs|
    ensures Run(store, reqs[..j]) ==
      Apply(Run(store, reqs[..j - 1]), ProcessItem(Run(store, reqs[..j - 1]).store, reqs[j - 1]))
  {
    assert reqs[..j][..j - 1] == reqs[..j - 1];
  }

  /** A refused item leaves the store as it was; an accepted one appends exactly its saved record. */
  lemma ItemEffectOnStore(store: seq<Leave>, reqs: seq<Request>, i: nat)
    requires i < |reqs|
    ensures Outcomes(store, reqs)[i].Refused? ==>
      Run(store, reqs[..i + 1]).store == Run(store, reqs[..i]).store
    ensures Outcomes(store, reqs)[i].Accepted? ==>
      Run(store, reqs[..i + 1]).store == Run(store, reqs[..i]).store + [Outcomes(store, reqs)[i].saved]
  {
    OutcomeOfItem(store, reqs, i);
    RunStep(store, reqs, i + 1);
  }

  /** The store as an earlier prefix of the batch left it is a prefix of the store a later prefix leaves. */
  lemma {:induction false} RunStoreGrows(store: seq<Leave>, reqs: seq<Request>, i: nat, j: nat)
    requires i <= j <= |reqs|
    ensures Run(store, reqs[..i]).store <= Run(store, reqs[..j]).store
    decreases j - i
  {
    if i < j {
      RunStoreGrows(store, reqs, i, j - 1);
      RunStep(store, reqs, j);
    }
  }

  /**
   * Sequential processing: once item `i` is accepted, a later item `j` of the
   * same employee with a valid range overlapping item `i`'s is refused as a
   * duplicate.
   */
  lemma LaterOverlappingItemIsDuplicate(store: seq<Leave>, reqs: seq<Request>, i: nat, j: nat)
    requires i < j < |reqs|
    requires Outcomes(store, reqs)[i].Accepted?
    requires reqs[j].employeeId == reqs[i].employeeId
    requires reqs[j].startDate <= reqs[j].endDate
    requires reqs[i].startDate <= reqs[j].endDate && reqs[j].startDate <= reqs[i].endDate
    ensures Outcomes(store, reqs)[j] == Refused(FailedItem(reqs[j], Duplicate))
  {
    var prevI := Run(store, reqs[..i]).store;
    OutcomeOfItem(store, reqs, i);
    var l := ProcessItem(prevI, reqs[i]).saved;
    RunStep(store, reqs, i + 1);
    assert Run(store, reqs[..i + 1]).store == prevI + [l];
    RunStoreGrows(store, reqs, i + 1, j);
    var before := Run(store, reqs[..j]).store;
    assert before[|prevI|] == l;
    MatchedIsDuplicate(before, reqs[j], |prevI|);
    OutcomeOfItem(store, reqs, j);
  }

  /** Records of other employees never affect an item: the check sees only the item's employee's records. */
  lemma OtherEmployeesNeverBlock(store: seq<Leave>, req: Request)
    ensures ProcessItem(store, req) == ProcessItem(ForEmployee(store, req.employeeId), req)
  {
  }

  /** The duplicate query has no status filter: changing a stored record's status never changes an item's outcome. */
  lemma StatusNeverMatters(store: seq<Leave>, req: Request, k: nat, s: Status)
    requires k < |store|
    ensures ProcessItem(store[k := store[k].(status := s)], req) == ProcessItem(store, req)
  {
    var store' := store[k := store[k].(status := s)];
    assert forall m :: 0 <= m < |store| ==>
      (Matches(store'[m], req.employeeId, req.startDate, req.endDate) <==> Matches(store[m], req.employeeId, req.startDate, req.endDate));
  }

  /** A valid item that the duplicate query matches against some stored record is refused as a duplicate. */
  lemma MatchedIsDuplicate(store: seq<Leave>, req: Request, k: nat)
    requires k < |store|
    requires req.startDate <= req.endDate
    requires Matches(store[k], req.employeeId, req.startDate, req.endDate)
    ensures ProcessItem(store, req) == Refused(FailedItem(req, Duplicate))
  {
  }

  /**
   * For a request that saves, the duplicate query matches a stored record
   * exactly when that record would clash with the record the request saves.
   */
  lemma MatchesIsClashWithSaved(l: Leave, req: Request)
    requires Save(req).Success?
    ensures Matches(l, req.employeeId, req.startDate, req.endDate) <==> Clash(l, Save(req).value)
  {
  }

  /** Ranges that share only a boundary instant count as overlapping: the later one is a duplicate. */
  lemma SharedBoundaryIsDuplicate(store: seq<Leave>, req: Request, k: nat)
    requires k < |store|
    requires store[k].employeeId == req.employeeId
    requires store[k].startDate <= store[k].endDate == req.startDate <= req.endDate
    ensures ProcessItem(store, req) == Refused(FailedItem(req, Duplicate))
  {
  }
}
