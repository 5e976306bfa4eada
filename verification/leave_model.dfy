/**
 * The leave document of the server (the Mongoose schema in server/app.js):
 * its enumerations, the request shape a client posts, the schema validation
 * that `save()` performs, and the pre-save hook that derives `days`.
 */
module LeaveModel {
  import opened Wrappers
  import opened DateUtils

  datatype LeaveType = Annual | Sick | Emergency

  datatype Status = Pending | Approved | Rejected

  /** The string the schema stores for a leave type. */
  function LeaveTypeName(t: LeaveType): string {
    match t
    case Annual => "Annual"
    case Sick => "Sick"
    case Emergency => "Emergency"
  }

  /** The string the schema stores for a status. */
  function StatusName(s: Status): string {
    match s
    case Pending => "Pending"
    case Approved => "Approved"
    case Rejected => "Rejected"
  }

  /** The `enum` check of the `leaveType` path: only the three schema names are accepted. */
  function ParseLeaveType(s: string): (r: Option<LeaveType>)
    ensures r.Some? ==> LeaveTypeName(r.value) == s
    ensures r.None? ==> forall t: LeaveType :: LeaveTypeName(t) != s
  {
    if s == "Annual" then Some(Annual)
    else if s == "Sick" then Some(Sick)
    else if s == "Emergency" then Some(Emergency)
    else None
  }

  /** The `enum` check of the `status` path. */
  function ParseStatus(s: string): (r: Option<Status>)
    ensures r.Some? ==> StatusName(r.value) == s
    ensures r.None? ==> forall st: Status :: StatusName(st) != s
  {
    if s == "Pending" then Some(Pending)
    else if s == "Approved" then Some(Approved)
    else if s == "Rejected" then Some(Rejected)
    else None
  }

  /** Every schema name is read back as the value it names. */
  lemma EnumNamesRoundTrip(t: LeaveType, s: Status)
    ensures ParseLeaveType(LeaveTypeName(t)) == Some(t)
    ensures ParseStatus(StatusName(s)) == Some(s)
  {
  }

  /** A stored leave document. `days` may be absent in a document the hook never saw. */
  datatype Leave = Leave(
    employeeId: string,
    name: string,
    leaveType: LeaveType,
    startDate: int,
    endDate: int,
    status: Status,
    days: Option<int>)

  /**
   * A leave request as a client posts it, before validation: the enumerated
   * fields are raw strings, `status` and `days` may be left out.
   */
  datatype Request = Request(
    employeeId: string,
    name: string,
    leaveType: string,
    startDate: int,
    endDate: int,
    status: Option<string>,
    days: Option<int>)

  /** One path the schema validation rejects: a required value missing, or a value outside the path's enum. */
  datatype FieldError = Required(path: string) | NotInEnum(path: string, value: string)

  /** The schema validation `save()` runs: every failing path in schema order, at most one error per path. */
  function ValidationErrors(req: Request): (errs: seq<FieldError>)
    ensures |errs| <= 4
    ensures |errs| == 0 <==>
      && req.employeeId != ""
      && req.name != ""
      && ParseLeaveType(req.leaveType).Some?
      && (req.status.Some? ==> ParseStatus(req.status.value).Some?)
  {
    (if req.employeeId == "" then [Required("employeeId")] else [])
    + (if req.name == "" then [Required("name")] else [])
    + (if req.leaveType == "" then [Required("leaveType")]
       else if ParseLeaveType(req.leaveType).None? then [NotInEnum("leaveType", req.leaveType)]
       else [])
    + (match req.status
       case None => []
       case Some(s) => if ParseStatus(s).None? then [NotInEnum("status", s)] else [])
  }

  /**
   * `new Leave({...request, days}).save()`: the schema defaults `status` to
   * Pending, the pre-save hook recomputes `days` from the two dates whatever
   * the request carried, and validation either rejects the document or it is
   * stored with the request's fields.
   */
  function Save(req: Request): (r: Result<Leave, seq<FieldError>>)
    ensures r.Failure? <==> |ValidationErrors(req)| > 0
    ensures r.Failure? ==> r.error == ValidationErrors(req)
    ensures r.Success? ==>
      && r.value.employeeId == req.employeeId
      && r.value.name == req.name
      && LeaveTypeName(r.value.leaveType) == req.leaveType
      && r.value.startDate == req.startDate
      && r.value.endDate == req.endDate
      && (req.status.None? ==> r.value.status == Pending)
      && (req.status.Some? ==> StatusName(r.value.status) == req.status.value)
      && r.value.days == Some(CalculateDays(req.startDate, req.endDate))
  {
    var errs := ValidationErrors(req);
    if |errs| > 0 then Failure(errs)
    else
      var status := match req.status
        case None => Pending
        case Some(s) => ParseStatus(s).value;
      Success(Leave(req.employeeId, req.name, ParseLeaveType(req.leaveType).value,
                    req.startDate, req.endDate, status,
                    Some(CalculateDays(req.startDate, req.endDate))))
  }

  /** Whatever `days` a request carries, the saved document is the same. */
  lemma SaveIgnoresCallerDays(req: Request, d: Option<int>)
    ensures Save(req.(days := d)) == Save(req)
  {
  }

  /** The records of one employee, in store order: the query `Leave.find({ employeeId })`. */
  function ForEmployee(store: seq<Leave>, employeeId: string): (r: seq<Leave>)
    ensures |r| <= |store|
    ensures forall l :: l in r <==> l in store && l.employeeId == employeeId
  {
    if |store| == 0 then []
    else if store[0].employeeId == employeeId then [store[0]] + ForEmployee(store[1..], employeeId)
    else ForEmployee(store[1..], employeeId)
  }

  /** The closed ranges `[s1, e1]` and `[s2, e2]` share at least one instant. */
  predicate RangesOverlap(s1: int, e1: int, s2: int, e2: int) {
    s1 <= e2 && s2 <= e1
  }

  /** The date ranges of two records overlap. */
  predicate Overlaps(a: Leave, b: Leave) {
    RangesOverlap(a.startDate, a.endDate, b.startDate, b.endDate)
  }

  /** The employee query over a single record keeps it exactly when the id matches. */
  lemma ForEmployeeOfOne(l: Leave, employeeId: string)
    ensures ForEmployee([l], employeeId) == if l.employeeId == employeeId then [l] else []
  {
    assert [l][1..] == [];
  }

  /**
   * The employee query distributes over concatenation: it keeps the store's
   * order and every occurrence of a matching record.
   */
  lemma {:induction false} ForEmployeeAppend(a: seq<Leave>, b: seq<Leave>, employeeId: string)
    ensures ForEmployee(a + b, employeeId) == ForEmployee(a, employeeId) + ForEmployee(b, employeeId)
  {
    if |a| == 0 {
      assert a + b == b;
    } else {
      assert (a + b)[1..] == a[1..] + b;
      ForEmployeeAppend(a[1..], b, employeeId);
    }
  }

  /** Two records of the same employee whose ranges overlap. */
  predicate Clash(a: Leave, b: Leave) {
    a.employeeId == b.employeeId && Overlaps(a, b)
  }

  /** The store invariant: no two records of the same employee overlap. */
  predicate NoClashes(store: seq<Leave>) {
    forall i, j :: 0 <= i < j < |store| ==> !Clash(store[i], store[j])
  }

  /** Every record carries the day count its dates determine and a non-inverted range. */
  predicate WellFormed(l: Leave) {
    l.startDate <= l.endDate && l.days == Some(CalculateDays(l.startDate, l.endDate))
  }
}
