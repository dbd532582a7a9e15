/**
 * An attendance record: one check-in and, once the employee leaves, its check-out. Every column
 * except the employee number is nullable, so every other field is an Option; `id` is None until
 * the first save assigns it. Coordinates are reals (only their ordering is used).
 */
module AttendanceRecord {
  import opened Wrappers

  datatype AttendanceStatus = CHECKED_IN | CHECKED_OUT

  datatype AttendanceRecord = AttendanceRecord(
    id: Option<int>,
    employeeNumber: string,
    checkInTime: Option<int>,
    checkOutTime: Option<int>,
    checkInLatitude: Option<real>,
    checkInLongitude: Option<real>,
    checkOutLatitude: Option<real>,
    checkOutLongitude: Option<real>,
    checkInIpAddress: Option<string>,
    checkOutIpAddress: Option<string>,
    checkInLocationDetails: Option<string>,
    checkOutLocationDetails: Option<string>,
    status: Option<AttendanceStatus>)
  {
    /** The record is the employee's open check-in as the attendance service sees it. */
    predicate IsCheckedIn() {
      status == Some(CHECKED_IN)
    }

    /** The record is open as the mobile endpoint sees it: no check-out time. */
    predicate LacksCheckOut() {
      checkOutTime.None?
    }

    /** The two notions of "open" agree on this record. */
    predicate Consistent() {
      IsCheckedIn() <==> LacksCheckOut()
    }
  }
}
