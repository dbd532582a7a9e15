/**
 * The mobile attendance endpoint: it validates the request, decides from the employee's records
 * whether this scan is a check-in or a check-out, picks the timestamp, and calls the attendance
 * service. Responses are an HTTP status with either an error message or the saved record.
 */
module MobileAttendanceController {
  import opened Wrappers
  import opened JavaText
  import opened PersonRepository
  import opened QRCodeToken
  import opened QRCodeService
  import opened AttendanceRecord
  import opened AttendanceRepository
  import opened AttendanceService
  import opened AdminService

  /** The request body; every field may be absent. */
  datatype AttendanceRequest = AttendanceRequest(
    employeeNumber: Option<string>,
    qrToken: Option<string>,
    ipAddress: Option<string>,
    latitude: Option<real>,
    longitude: Option<real>,
    locationDetails: Option<string>,
    timestamp: Option<string>)

  datatype Body = ErrorBody(error: string) | SuccessBody(message: string, record: AttendanceRecord)

  datatype Response = Response(status: int, body: Body)

  datatype Direction = CheckIn | CheckOut

  /** A latitude passes when absent or within [-90, 90]. */
  predicate LatitudeAccepted(latitude: Option<real>) {
    latitude.None? || !(latitude.value < -90.0 || latitude.value > 90.0)
  }

  /** A longitude passes when absent or within [-180, 180]. */
  predicate LongitudeAccepted(longitude: Option<real>) {
    longitude.None? || !(longitude.value < -180.0 || longitude.value > 180.0)
  }

  /**
   * The guards tested before the direction is chosen, in order: both required fields present,
   * the employee number numeric (untrimmed), the employee in the registry, the coordinates in
   * range, the token presentable. None when the request passes them all.
   */
  function RequestRejection(req: AttendanceRequest, personRepository: Registry, tokenValid: bool)
    : (r: Option<Response>)
    ensures req.employeeNumber.None? || req.qrToken.None?
            ==> r == Some(Response(400, ErrorBody("employeeNumber and qrToken are required")))
    ensures req.employeeNumber.Some? && req.qrToken.Some? && ParseInt(req.employeeNumber.value).None?
            ==> r == Some(Response(400, ErrorBody("Invalid employee number format")))
    ensures r.None? <==> req.employeeNumber.Some? && req.qrToken.Some?
                         && ParseInt(req.employeeNumber.value).Some?
                         && FindBySicilNo(personRepository, ParseInt(req.employeeNumber.value).value).Some?
                         && LatitudeAccepted(req.latitude) && LongitudeAccepted(req.longitude) && tokenValid
    ensures r.Some? ==> r.value.body.ErrorBody? && r.value.status in {400, 401}
    ensures r.Some? && r.value.status == 401 <==>
            req.employeeNumber.Some? && req.qrToken.Some? && ParseInt(req.employeeNumber.value).Some?
            && (FindBySicilNo(personRepository, ParseInt(req.employeeNumber.value).value).None?
                || (LatitudeAccepted(req.latitude) && LongitudeAccepted(req.longitude) && !tokenValid))
  {
    if req.employeeNumber.None? || req.qrToken.None? then
      Some(Response(400, ErrorBody("employeeNumber and qrToken are required")))
    else match ParseInt(req.employeeNumber.value)
      case None => Some(Response(400, ErrorBody("Invalid employee number format")))
      case Some(sicilNo) =>
        if FindBySicilNo(personRepository, sicilNo).None? then Some(Response(401, ErrorBody("Person not found")))
        else if !LatitudeAccepted(req.latitude) then Some(Response(400, ErrorBody("Invalid latitude")))
        else if !LongitudeAccepted(req.longitude) then Some(Response(400, ErrorBody("Invalid longitude")))
        else if !tokenValid then Some(Response(401, ErrorBody("Invalid or expired QR token")))
        else None
  }

  /** The first record without a check-out time (a stream filter followed by findFirst). */
  function FirstWithoutCheckOut(records: seq<AttendanceRecord>): (r: Option<AttendanceRecord>)
    ensures r.Some? ==> r.value in records && r.value.LacksCheckOut()
    ensures r.None? <==> forall x :: x in records ==> !x.LacksCheckOut()
  {
    if records == [] then None
    else if records[0].LacksCheckOut() then Some(records[0])
    else
      assert records == [records[0]] + records[1..];
      FirstWithoutCheckOut(records[1..])
  }

  /** Check-out when one of the employee's records lacks a check-out time, check-in otherwise. */
  function ChooseDirection(records: seq<AttendanceRecord>): (d: Direction)
    ensures d == CheckOut <==> exists x :: x in records && x.LacksCheckOut()
  {
    if FirstWithoutCheckOut(records).None? then CheckIn else CheckOut
  }

  /**
   * The timestamp of the action: the submitted text parsed as an ISO local date-time when it is
   * present, not blank and parses; the server time `now` in every other case, with no error.
   */
  function ChooseTimestamp(timestamp: Option<string>, parseIsoLocalDateTime: string -> Option<int>, now: int)
    : (t: int)
    ensures timestamp.Some? && !IsBlank(timestamp.value) && parseIsoLocalDateTime(timestamp.value).Some?
            ==> t == parseIsoLocalDateTime(timestamp.value).value
    ensures timestamp.None? || IsBlank(timestamp.value) || parseIsoLocalDateTime(timestamp.value).None? ==> t == now
  {
    if timestamp.Some? && !IsBlank(timestamp.value) then
      match parseIsoLocalDateTime(timestamp.value)
      case Some(t) => t
      case None => now
    else now
  }

  /** The response for a domain rejection raised inside the service. */
  function ServiceFailure(e: AttendanceError): Response {
    Response(500, ErrorBody("Internal server error: " + e.Message()))
  }

  /**
   * While every record's status agrees with its check-out time, the endpoint's direction matches
   * the service's guards: it chooses check-out exactly when the service sees a CHECKED_IN record,
   * so a check-in it starts is never refused as "already checked in" and a check-out it starts
   * always finds the open record.
   */
  lemma DirectionMatchesServiceGuards(records: seq<AttendanceRecord>, employeeNumber: string,
                                      token: Option<QRCodeToken>)
    requires AllConsistent(records)
    ensures ChooseDirection(FindByEmployeeNumberOrderByCheckInTimeDesc(records, employeeNumber)) == CheckOut
            <==> HasCheckedInRecord(records, employeeNumber)
    ensures ChooseDirection(FindByEmployeeNumberOrderByCheckInTimeDesc(records, employeeNumber)) == CheckIn
            ==> CheckInRejection(token, records, employeeNumber) != Some(AlreadyCheckedIn)
    ensures ChooseDirection(FindByEmployeeNumberOrderByCheckInTimeDesc(records, employeeNumber)) == CheckOut
            ==> CheckOutRejection(token, records, employeeNumber) != Some(NoActiveCheckIn)
  {
    var mine := FindByEmployeeNumberOrderByCheckInTimeDesc(records, employeeNumber);
    forall x | x in records ensures x.Consistent() {
      var i :| 0 <= i < |records| && records[i] == x;
    }
    if HasCheckedInRecord(records, employeeNumber) {
      var x :| x in records && x.employeeNumber == employeeNumber && x.IsCheckedIn();
      assert x in mine;
    }
  }

  /**
   * The administrator's edit can strand an employee: giving an open record a check-out time while
   * its status stays CHECKED_IN makes the endpoint choose check-in, which the service then refuses
   * because the employee is still checked in, whatever token is shown.
   */
  lemma EditCanStrandEmployee(token: QRCodeToken)
    ensures var open := NewCheckIn("7", 100, Some(""), Some(0.0), Some(0.0), None).(id := Some(1));
            var records := Replaced([open], Edited(open, open.(checkOutTime := Some(200))));
            AtMostOneCheckedIn(records)
            && ChooseDirection(FindByEmployeeNumberOrderByCheckInTimeDesc(records, "7")) == CheckIn
            && CheckInRejection(Some(token), records, "7") == Some(AlreadyCheckedIn)
  {
    var open := NewCheckIn("7", 100, Some(""), Some(0.0), Some(0.0), None).(id := Some(1));
    var edited := Edited(open, open.(checkOutTime := Some(200)));
    var records := Replaced([open], edited);
    assert records == [edited];
    assert edited in records;
  }

  class MobileAttendanceController {
    const attendanceService: AttendanceService
    const personRepository: Registry

    ghost predicate Valid()
      reads this, attendanceService, attendanceService.store, attendanceService.qrCodeService
    {
      attendanceService.Valid()
    }

    constructor (attendanceService: AttendanceService, personRepository: Registry)
      requires attendanceService.Valid()
      ensures this.attendanceService == attendanceService && this.personRepository == personRepository
      ensures Valid()
    {
      this.attendanceService := attendanceService;
      this.personRepository := personRepository;
    }

    /**
     * `processAttendance`. A rejected request changes nothing. Otherwise the direction and the
     * timestamp are chosen from the records and the request, absent ip and coordinates are
     * replaced by "" and 0.0, and the service's check-in or check-out runs: its rejection
     * becomes a 500 response with its message, its success a 200 response naming the direction
     * and carrying the saved record.
     */
    method ProcessAttendance(req: AttendanceRequest, parseIsoLocalDateTime: string -> Option<int>, now: int)
      returns (response: Response)
      requires Valid()
      modifies attendanceService.store`records, attendanceService.store`nextId, attendanceService.qrCodeService`tokens
      ensures Valid()
      ensures var records := old(attendanceService.store.records);
        var tokenValid := req.qrToken.Some? && old(attendanceService.qrCodeService.GetValidToken(req.qrToken.value, now)).Some?;
        match RequestRejection(req, personRepository, tokenValid)
        case Some(rejected) =>
          response == rejected && attendanceService.store.records == records
          && attendanceService.qrCodeService.tokens == old(attendanceService.qrCodeService.tokens)
        case None =>
          var employeeNumber := req.employeeNumber.value;
          var qrToken := req.qrToken.value;
          var token := old(attendanceService.qrCodeService.GetValidToken(qrToken, now));
          var timestamp := ChooseTimestamp(req.timestamp, parseIsoLocalDateTime, now);
          var ip, lat, lon := Some(req.ipAddress.GetOr("")), Some(req.latitude.GetOr(0.0)), Some(req.longitude.GetOr(0.0));
          match ChooseDirection(FindByEmployeeNumberOrderByCheckInTimeDesc(records, employeeNumber))
          case CheckIn =>
            (match CheckInRejection(token, records, employeeNumber)
             case Some(e) =>
               response == ServiceFailure(e) && attendanceService.store.records == records
               && attendanceService.qrCodeService.tokens == old(attendanceService.qrCodeService.tokens)
             case None =>
               var saved := NewCheckIn(employeeNumber, timestamp, ip, lat, lon, req.locationDetails)
                              .(id := Some(old(attendanceService.store.nextId)));
               response == Response(200, SuccessBody("Checked in successfully", saved))
               && attendanceService.store.records == records + [saved]
               && attendanceService.qrCodeService.tokens
                  == Marked(old(attendanceService.qrCodeService.tokens), qrToken, ForCheckIn))
          case CheckOut =>
            (match CheckOutRejection(token, records, employeeNumber)
             case Some(e) =>
               response == ServiceFailure(e) && attendanceService.store.records == records
               && attendanceService.qrCodeService.tokens == old(attendanceService.qrCodeService.tokens)
             case None =>
               var last := FindFirstByEmployeeNumberAndStatusOrderByCheckInTimeDesc(records, employeeNumber,
                                                                                    CHECKED_IN).value;
               var closed := CheckedOut(last, timestamp, ip, lat, lon, req.locationDetails);
               response == Response(200, SuccessBody("Checked out successfully", closed))
               && attendanceService.store.records == Replaced(records, closed)
               && attendanceService.qrCodeService.tokens
                  == Marked(old(attendanceService.qrCodeService.tokens), qrToken, ForCheckOut))
    {
      var tokenValid := req.qrToken.Some? && attendanceService.qrCodeService.GetValidToken(req.qrToken.value, now).Some?;
      var rejection := RequestRejection(req, personRepository, tokenValid);
      if rejection.Some? {
        return rejection.value;
      }
      var employeeNumber := req.employeeNumber.value;
      var records := attendanceService.GetAttendanceRecordsByEmployee(employeeNumber);
      var openRecord := FirstWithoutCheckOut(records);
      var timestamp := ChooseTimestamp(req.timestamp, parseIsoLocalDateTime, now);
      var ip, lat, lon := Some(req.ipAddress.GetOr("")), Some(req.latitude.GetOr(0.0)), Some(req.longitude.GetOr(0.0));
      var result;
      if openRecord.None? {
        result := attendanceService.ProcessCheckInWithTimestamp(employeeNumber, req.qrToken.value, ip, lat, lon,
                                                                req.locationDetails, timestamp, now);
      } else {
        result := attendanceService.ProcessCheckOutWithTimestamp(employeeNumber, req.qrToken.value, ip, lat, lon,
                                                                 req.locationDetails, timestamp, now);
      }
      match result
      case Err(e) =>
        response := ServiceFailure(e);
      case Ok(record) =>
        var message := if openRecord.None? then "Checked in successfully" else "Checked out successfully";
        response := Response(200, SuccessBody(message, record));
    }
  }
}
