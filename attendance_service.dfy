/**
 * The attendance service: a check-in opens a record for the employee, a check-out closes the
 * newest open one, and each consumes the presented token for that action only. Every guard is
 * tested before anything is saved or marked.
 */
module AttendanceService {
  import opened Wrappers
  import opened QRCodeToken
  import opened QRCodeTokenRepository
  import opened QRCodeService
  import opened AttendanceRecord
  import opened AttendanceRepository

  /** The rejections the service raises, each with the message of its exception. */
  datatype AttendanceError =
    | InvalidToken
    | AlreadyCheckedIn
    | TokenUsedForCheckIn
    | TokenUsedForCheckOut
    | NoActiveCheckIn
  {
    function Message(): string {
      match this
      case InvalidToken => "Invalid or expired QR token."
      case AlreadyCheckedIn => "User has already checked in."
      case TokenUsedForCheckIn => "This QR code has already been used for check-in today."
      case TokenUsedForCheckOut => "This QR code has already been used for check-out today."
      case NoActiveCheckIn => "No active check-in found to check out."
    }
  }

  /** The employee has a record in CHECKED_IN status. */
  ghost predicate HasCheckedInRecord(records: seq<AttendanceRecord>, employeeNumber: string) {
    exists x :: x in records && x.employeeNumber == employeeNumber && x.IsCheckedIn()
  }

  /**
   * The check-in guards in the order the service tests them, given what `getValidToken` returned:
   * a missing token, then an open record, then a token already used for check-in.
   */
  function CheckInRejection(token: Option<QRCodeToken>, records: seq<AttendanceRecord>, employeeNumber: string)
    : (e: Option<AttendanceError>)
    ensures e == Some(InvalidToken) <==> token.None?
    ensures e == Some(AlreadyCheckedIn) <==> token.Some? && HasCheckedInRecord(records, employeeNumber)
    ensures e == Some(TokenUsedForCheckIn)
            <==> token.Some? && !HasCheckedInRecord(records, employeeNumber) && token.value.usedForCheckIn
    ensures e.None? <==> token.Some? && !HasCheckedInRecord(records, employeeNumber) && !token.value.usedForCheckIn
  {
    if token.None? then Some(InvalidToken)
    else if FindFirstByEmployeeNumberAndStatusOrderByCheckInTimeDesc(records, employeeNumber, CHECKED_IN).Some? then
      Some(AlreadyCheckedIn)
    else if token.value.usedForCheckIn then Some(TokenUsedForCheckIn)
    else None
  }

  /**
   * The check-out guards in the order the service tests them: a missing token, then a token
   * already used for check-out, then no open record.
   */
  function CheckOutRejection(token: Option<QRCodeToken>, records: seq<AttendanceRecord>, employeeNumber: string)
    : (e: Option<AttendanceError>)
    ensures e == Some(InvalidToken) <==> token.None?
    ensures e == Some(TokenUsedForCheckOut) <==> token.Some? && token.value.usedForCheckOut
    ensures e == Some(NoActiveCheckIn)
            <==> token.Some? && !token.value.usedForCheckOut && !HasCheckedInRecord(records, employeeNumber)
    ensures e.None? <==> token.Some? && !token.value.usedForCheckOut && HasCheckedInRecord(records, employeeNumber)
  {
    if token.None? then Some(InvalidToken)
    else if token.value.usedForCheckOut then Some(TokenUsedForCheckOut)
    else if FindFirstByEmployeeNumberAndStatusOrderByCheckInTimeDesc(records, employeeNumber, CHECKED_IN).None? then
      Some(NoActiveCheckIn)
    else None
  }

  /** The record a check-in builds before saving it. */
  function NewCheckIn(employeeNumber: string, timestamp: int, ipAddress: Option<string>, latitude: Option<real>,
                      longitude: Option<real>, locationDetails: Option<string>): AttendanceRecord
  {
    AttendanceRecord(None, employeeNumber, Some(timestamp), None, latitude, longitude, None, None,
                     ipAddress, None, locationDetails, None, Some(CHECKED_IN))
  }

  /**
   * The open record after a check-out's setters: the check-out fields are filled, the status is
   * CHECKED_OUT, and nothing else of the record changes.
   */
  function CheckedOut(r: AttendanceRecord, timestamp: int, ipAddress: Option<string>, latitude: Option<real>,
                      longitude: Option<real>, locationDetails: Option<string>): (c: AttendanceRecord)
    ensures c.status == Some(CHECKED_OUT) && c.checkOutTime == Some(timestamp)
    ensures c.checkOutIpAddress == ipAddress && c.checkOutLatitude == latitude
            && c.checkOutLongitude == longitude && c.checkOutLocationDetails == locationDetails
    ensures c.(checkOutTime := r.checkOutTime, checkOutIpAddress := r.checkOutIpAddress,
               checkOutLatitude := r.checkOutLatitude, checkOutLongitude := r.checkOutLongitude,
               checkOutLocationDetails := r.checkOutLocationDetails, status := r.status) == r
  {
    r.(checkOutTime := Some(timestamp), checkOutIpAddress := ipAddress, checkOutLatitude := latitude,
       checkOutLongitude := longitude, checkOutLocationDetails := locationDetails, status := Some(CHECKED_OUT))
  }

  /** A check-in, allowed only when the employee has no CHECKED_IN record, keeps at most one per employee. */
  lemma CheckInKeepsAtMostOneCheckedIn(records: seq<AttendanceRecord>, r: AttendanceRecord)
    requires AtMostOneCheckedIn(records)
    requires !HasCheckedInRecord(records, r.employeeNumber)
    ensures AtMostOneCheckedIn(records + [r])
  {
    var t := records + [r];
    forall i, j | 0 <= i < |t| && 0 <= j < |t| && t[i].IsCheckedIn() && t[j].IsCheckedIn()
                  && t[i].employeeNumber == t[j].employeeNumber
      ensures i == j
    {
      if i < |records| && j < |records| {
        assert records[i] == t[i] && records[j] == t[j];
      }
    }
  }

  /** Saving a record that is not CHECKED_IN over a stored one keeps at most one CHECKED_IN per employee. */
  lemma CheckOutKeepsAtMostOneCheckedIn(records: seq<AttendanceRecord>, r: AttendanceRecord)
    requires AtMostOneCheckedIn(records)
    requires !r.IsCheckedIn()
    ensures AtMostOneCheckedIn(Replaced(records, r))
  {
    var t := Replaced(records, r);
    forall i, j | 0 <= i < |t| && 0 <= j < |t| && t[i].IsCheckedIn() && t[j].IsCheckedIn()
                  && t[i].employeeNumber == t[j].employeeNumber
      ensures i == j
    {
      assert t[i] == records[i] && t[j] == records[j];
    }
  }

  /** Once a check-in succeeds, a second check-in for the same employee is rejected. */
  lemma NoSecondCheckIn(records: seq<AttendanceRecord>, employeeNumber: string, r: AttendanceRecord,
                        token: Option<QRCodeToken>)
    requires r.employeeNumber == employeeNumber && r.IsCheckedIn()
    ensures CheckInRejection(token, records + [r], employeeNumber).Some?
  {
    assert r in records + [r];
  }

  /**
   * A check-out closes the employee's only CHECKED_IN record, so the employee has none left and
   * the next check-in is no longer refused for that reason.
   */
  lemma CheckOutClosesOpenRecord(records: seq<AttendanceRecord>, last: AttendanceRecord, closed: AttendanceRecord)
    requires AtMostOneCheckedIn(records)
    requires last in records && last.IsCheckedIn()
    requires closed.id == last.id && closed.employeeNumber == last.employeeNumber && !closed.IsCheckedIn()
    ensures !HasCheckedInRecord(Replaced(records, closed), last.employeeNumber)
  {
    var t := Replaced(records, closed);
    var k :| 0 <= k < |records| && records[k] == last;
    forall x | x in t && x.employeeNumber == last.employeeNumber ensures !x.IsCheckedIn() {
      var i :| 0 <= i < |t| && t[i] == x;
      assert records[i].id != closed.id ==> t[i] == records[i];
    }
  }

  /** Every record's status agrees with whether it has a check-out time. */
  ghost predicate AllConsistent(records: seq<AttendanceRecord>) {
    forall i :: 0 <= i < |records| ==> records[i].Consistent()
  }

  /** The service's own writes keep status and check-out time in agreement. */
  lemma ServiceWritesKeepConsistency(records: seq<AttendanceRecord>, r: AttendanceRecord, employeeNumber: string,
                                     timestamp: int, ipAddress: Option<string>, latitude: Option<real>,
                                     longitude: Option<real>, locationDetails: Option<string>, id: int)
    requires AllConsistent(records)
    ensures AllConsistent(records + [NewCheckIn(employeeNumber, timestamp, ipAddress, latitude, longitude,
                                                locationDetails).(id := Some(id))])
    ensures AllConsistent(Replaced(records, CheckedOut(r, timestamp, ipAddress, latitude, longitude, locationDetails)))
  {
    var t := Replaced(records, CheckedOut(r, timestamp, ipAddress, latitude, longitude, locationDetails));
    assert forall i :: 0 <= i < |t| ==> t[i].Consistent() by {
      forall i | 0 <= i < |t| ensures t[i].Consistent() {
        assert records[i].Consistent();
      }
    }
  }

  class AttendanceService {
    const store: AttendanceStore
    const qrCodeService: QRCodeService

    ghost predicate Valid()
      reads this, store, qrCodeService
    {
      store.Valid() && qrCodeService.Valid() && AtMostOneCheckedIn(store.records)
    }

    constructor (store: AttendanceStore, qrCodeService: QRCodeService)
      requires store.Valid() && qrCodeService.Valid() && AtMostOneCheckedIn(store.records)
      ensures this.store == store && this.qrCodeService == qrCodeService
      ensures Valid()
    {
      this.store := store;
      this.qrCodeService := qrCodeService;
    }

    /** `processCheckIn`: a check-in stamped with the server clock. */
    method ProcessCheckIn(employeeNumber: string, qrToken: string, ipAddress: Option<string>, latitude: Option<real>,
                          longitude: Option<real>, locationDetails: Option<string>, now: int)
      returns (result: Result<AttendanceRecord, AttendanceError>)
      requires Valid()
      modifies store`records, store`nextId, qrCodeService`tokens
      ensures Valid()
      ensures match CheckInRejection(old(qrCodeService.GetValidToken(qrToken, now)), old(store.records), employeeNumber)
        case Some(e) =>
          result == Err(e) && store.records == old(store.records) && store.nextId == old(store.nextId)
          && qrCodeService.tokens == old(qrCodeService.tokens)
        case None =>
          result == Ok(NewCheckIn(employeeNumber, now, ipAddress, latitude, longitude, locationDetails)
                         .(id := Some(old(store.nextId))))
          && store.records == old(store.records) + [result.value]
          && qrCodeService.tokens == Marked(old(qrCodeService.tokens), qrToken, ForCheckIn)
    {
      result := ProcessCheckInWithTimestamp(employeeNumber, qrToken, ipAddress, latitude, longitude, locationDetails,
                                            now, now);
    }

    /** `processCheckOut`: a check-out stamped with the server clock. */
    method ProcessCheckOut(employeeNumber: string, qrToken: string, ipAddress: Option<string>, latitude: Option<real>,
                           longitude: Option<real>, locationDetails: Option<string>, now: int)
      returns (result: Result<AttendanceRecord, AttendanceError>)
      requires Valid()
      modifies store`records, store`nextId, qrCodeService`tokens
      ensures Valid()
      ensures match CheckOutRejection(old(qrCodeService.GetValidToken(qrToken, now)), old(store.records), employeeNumber)
        case Some(e) =>
          result == Err(e) && store.records == old(store.records) && store.nextId == old(store.nextId)
          && qrCodeService.tokens == old(qrCodeService.tokens)
        case None =>
          var last := FindFirstByEmployeeNumberAndStatusOrderByCheckInTimeDesc(old(store.records), employeeNumber,
                                                                               CHECKED_IN).value;
          result == Ok(CheckedOut(last, now, ipAddress, latitude, longitude, locationDetails))
          && store.records == Replaced(old(store.records), result.value) && store.nextId == old(store.nextId)
          && qrCodeService.tokens == Marked(old(qrCodeService.tokens), qrToken, ForCheckOut)
    {
      result := ProcessCheckOutWithTimestamp(employeeNumber, qrToken, ipAddress, latitude, longitude, locationDetails,
                                             now, now);
    }

    /**
     * `processCheckInWithTimestamp`: if no guard rejects, a new CHECKED_IN record with the given
     * check-in time and data is appended and the token's check-in flag is set; a rejection
     * changes neither the records nor any token. `now` is the clock the token check reads.
     */
    method ProcessCheckInWithTimestamp(employeeNumber: string, qrToken: string, ipAddress: Option<string>,
                                       latitude: Option<real>, longitude: Option<real>,
                                       locationDetails: Option<string>, timestamp: int, now: int)
      returns (result: Result<AttendanceRecord, AttendanceError>)
      requires Valid()
      modifies store`records, store`nextId, qrCodeService`tokens
      ensures Valid()
      ensures match CheckInRejection(old(qrCodeService.GetValidToken(qrToken, now)), old(store.records), employeeNumber)
        case Some(e) =>
          result == Err(e) && store.records == old(store.records) && store.nextId == old(store.nextId)
          && qrCodeService.tokens == old(qrCodeService.tokens)
        case None =>
          result == Ok(NewCheckIn(employeeNumber, timestamp, ipAddress, latitude, longitude, locationDetails)
                         .(id := Some(old(store.nextId))))
          && store.records == old(store.records) + [result.value]
          && qrCodeService.tokens == Marked(old(qrCodeService.tokens), qrToken, ForCheckIn)
    {
      var token := qrCodeService.GetValidToken(qrToken, now);
      var rejection := CheckInRejection(token, store.records, employeeNumber);
      if rejection.Some? {
        return Err(rejection.value);
      }
      var record := NewCheckIn(employeeNumber, timestamp, ipAddress, latitude, longitude, locationDetails);
      CheckInKeepsAtMostOneCheckedIn(store.records, record.(id := Some(store.nextId)));
      var savedRecord := store.Insert(record);
      qrCodeService.MarkTokenAsUsedForCheckIn(qrToken);
      return Ok(savedRecord);
    }

    /**
     * `processCheckOutWithTimestamp`: if no guard rejects, the employee's newest CHECKED_IN record
     * gets the given check-out time and data and becomes CHECKED_OUT, and the token's check-out
     * flag is set; a rejection changes neither the records nor any token.
     */
    method ProcessCheckOutWithTimestamp(employeeNumber: string, qrToken: string, ipAddress: Option<string>,
                                        latitude: Option<real>, longitude: Option<real>,
                                        locationDetails: Option<string>, timestamp: int, now: int)
      returns (result: Result<AttendanceRecord, AttendanceError>)
      requires Valid()
      modifies store`records, store`nextId, qrCodeService`tokens
      ensures Valid()
      ensures match CheckOutRejection(old(qrCodeService.GetValidToken(qrToken, now)), old(store.records), employeeNumber)
        case Some(e) =>
          result == Err(e) && store.records == old(store.records) && store.nextId == old(store.nextId)
          && qrCodeService.tokens == old(qrCodeService.tokens)
        case None =>
          var last := FindFirstByEmployeeNumberAndStatusOrderByCheckInTimeDesc(old(store.records), employeeNumber,
                                                                               CHECKED_IN).value;
          result == Ok(CheckedOut(last, timestamp, ipAddress, latitude, longitude, locationDetails))
          && store.records == Replaced(old(store.records), result.value) && store.nextId == old(store.nextId)
          && qrCodeService.tokens == Marked(old(qrCodeService.tokens), qrToken, ForCheckOut)
    {
      var token := qrCodeService.GetValidToken(qrToken, now);
      var rejection := CheckOutRejection(token, store.records, employeeNumber);
      if rejection.Some? {
        return Err(rejection.value);
      }
      var lastRecord := FindFirstByEmployeeNumberAndStatusOrderByCheckInTimeDesc(store.records, employeeNumber,
                                                                                 CHECKED_IN);
      var record := CheckedOut(lastRecord.value, timestamp, ipAddress, latitude, longitude, locationDetails);
      assert record.id == lastRecord.value.id && lastRecord.value in store.records;
      assert FindById(store.records, record.id.value).Some?;
      CheckOutKeepsAtMostOneCheckedIn(store.records, record);
      store.Update(record);
      qrCodeService.MarkTokenAsUsedForCheckOut(qrToken);
      return Ok(record);
    }

    /** `getAttendanceRecordsByEmployee`: the employee's records, each as often as stored, newest check-in first. */
    function GetAttendanceRecordsByEmployee(employeeNumber: string): (r: seq<AttendanceRecord>)
      reads this, store
      ensures NewestFirst(r)
      ensures forall x :: multiset(r)[x] == if x.employeeNumber == employeeNumber then multiset(store.records)[x] else 0
      ensures forall x :: x in r <==> x in store.records && x.employeeNumber == employeeNumber
    {
      FindByEmployeeNumberOrderByCheckInTimeDesc(store.records, employeeNumber)
    }
  }
}
