/** The pure rules of src/orders/utils/order.util.ts: transitions, cancel permission, reasons. */
module OrderRules {
  import opened Model

  datatype CancelType = FromStudent | FromStaff

  const STAFF_REASON := "Lí do xuất phát từ nhân viên: "

  const STUDENT_REASON := "Lí do xuất phát từ sinh viên: "

  function ValidTransitions(from: OrderStatus): set<OrderStatus> {
    match from
    case Pending => {Accepted, Rejected, Canceled}
    case Accepted => {ReceivedExternal, Canceled}
    case ReceivedExternal => {InTransport, Canceled}
    case InTransport => {Delivered, Canceled}
    case Delivered => {}
    case Rejected => {Pending}
    case Canceled => {Pending}
  }

  predicate IsValidTransition(from: OrderStatus, to: OrderStatus) {
    to in ValidTransitions(from)
  }

  predicate HasCancelPermission(role: Role, status: OrderStatus) {
    match status
    case InTransport => role == Admin || role == Staff
    case ReceivedExternal | Accepted | Pending => role == Admin || role == Student
    case _ => false
  }

  /** The reason column: a prefix naming who caused the cancel, then the given text. */
  function MapReason(cancelType: Option<CancelType>, reason: Option<string>): Option<string> {
    if cancelType.None? || !Given(reason) then None
    else if cancelType.value == FromStaff then Some(STAFF_REASON + reason.value)
    else Some(STUDENT_REASON + reason.value)
  }

  /** A history row that charges the student: a cancel whose reason carries the student prefix. */
  predicate IsStudentFault(row: StatusRow) {
    row.status == Canceled && row.reason.Some? && STUDENT_REASON <= row.reason.value
  }

  /** Wherever a role may cancel, the table allows the cancel. */
  lemma PermissionImpliesTransition(role: Role, status: OrderStatus)
    ensures HasCancelPermission(role, status) ==> IsValidTransition(status, Canceled)
  {
  }

  /** Conversely, in every state the table lets out to CANCELED some role may cancel. */
  lemma TransitionImpliesPermission(status: OrderStatus)
    ensures IsValidTransition(status, Canceled) <==> exists role :: HasCancelPermission(role, status)
  {
    assert IsValidTransition(status, Canceled) ==> HasCancelPermission(Admin, status);
  }

  lemma PrefixesDiffer(reason: string)
    ensures !(STUDENT_REASON <= STAFF_REASON + reason)
    ensures !(STAFF_REASON <= STUDENT_REASON + reason)
  {
    assert |STUDENT_REASON| == |STAFF_REASON| == 30;
    assert STUDENT_REASON[19] == 's' && (STAFF_REASON + reason)[19] == 'n';
    assert STAFF_REASON[19] == 'n' && (STUDENT_REASON + reason)[19] == 's';
  }

  /** The prefix says who caused the cancel: the reason column determines both arguments. */
  lemma MapReasonInjective(a: CancelType, x: string, b: CancelType, y: string)
    requires x != "" && y != ""
    requires MapReason(Some(a), Some(x)) == MapReason(Some(b), Some(y))
    ensures a == b && x == y
  {
    PrefixesDiffer(x);
    PrefixesDiffer(y);
    if a == b {
      var prefix := if a == FromStaff then STAFF_REASON else STUDENT_REASON;
      assert (prefix + x)[|prefix|..] == x && (prefix + y)[|prefix|..] == y;
    }
  }

  /** A canceled row charges the student exactly when the cancel was declared student-caused. */
  lemma FaultOfMapReason(row: StatusRow, cancelType: Option<CancelType>, reason: Option<string>)
    requires row.reason == MapReason(cancelType, reason)
    ensures IsStudentFault(row) <==>
            row.status == Canceled && cancelType == Some(FromStudent) && Given(reason)
  {
    if cancelType.Some? && Given(reason) {
      PrefixesDiffer(reason.value);
      assert STUDENT_REASON <= STUDENT_REASON + reason.value;
    }
  }
}
