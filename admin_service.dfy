/**
 * The administrator's view of the attendance table: list everything, overwrite three fields of
 * one record, delete a record.
 */
module AdminService {
  import opened Wrappers
  import opened JavaText
  import opened AttendanceRecord
  import opened AttendanceRepository

  /** The message of the exception raised for an unknown record id. */
  function NotFoundMessage(recordId: int): string {
    "Record not found with id: " + ToString(recordId)
  }

  /**
   * The stored record after the edit's setters: check-in time, check-out time and check-in
   * latitude are taken from the submitted record, every other field (status included) is kept.
   */
  function Edited(existing: AttendanceRecord, updatedRecord: AttendanceRecord): (e: AttendanceRecord)
    ensures e.checkInTime == updatedRecord.checkInTime && e.checkOutTime == updatedRecord.checkOutTime
            && e.checkInLatitude == updatedRecord.checkInLatitude
    ensures e.(checkInTime := existing.checkInTime, checkOutTime := existing.checkOutTime,
               checkInLatitude := existing.checkInLatitude) == existing
  {
    existing.(checkInTime := updatedRecord.checkInTime, checkOutTime := updatedRecord.checkOutTime,
              checkInLatitude := updatedRecord.checkInLatitude)
  }

  /**
   * The edit keeps every record's employee and status, so it keeps at most one CHECKED_IN record
   * per employee.
   */
  lemma EditKeepsAtMostOneCheckedIn(records: seq<AttendanceRecord>, existing: AttendanceRecord,
                                    updatedRecord: AttendanceRecord)
    requires AtMostOneCheckedIn(records) && IdsIncreasing(records)
    requires existing in records
    ensures AtMostOneCheckedIn(Replaced(records, Edited(existing, updatedRecord)))
  {
    var t := Replaced(records, Edited(existing, updatedRecord));
    forall i | 0 <= i < |t|
      ensures t[i].status == records[i].status && t[i].employeeNumber == records[i].employeeNumber
    {
      if records[i].id == existing.id {
        IdDeterminesRecord(records, records[i], existing);
      }
    }
  }

  /** Deleting a record keeps at most one CHECKED_IN record per employee. */
  lemma DeleteKeepsAtMostOneCheckedIn(records: seq<AttendanceRecord>, id: int)
    requires AtMostOneCheckedIn(records) && IdsIncreasing(records)
    ensures AtMostOneCheckedIn(WithoutId(records, id))
  {
    var t := WithoutId(records, id);
    WithoutIdKeepsIdOrder(records, id);
    forall i, j | 0 <= i < |t| && 0 <= j < |t| && t[i].IsCheckedIn() && t[j].IsCheckedIn()
                  && t[i].employeeNumber == t[j].employeeNumber
      ensures i == j
    {
      assert t[i] in records && t[j] in records;
      var i' :| 0 <= i' < |records| && records[i'] == t[i];
      var j' :| 0 <= j' < |records| && records[j'] == t[j];
    }
  }

  class AdminService {
    const store: AttendanceStore

    ghost predicate Valid()
      reads this, store
    {
      store.Valid()
    }

    constructor (store: AttendanceStore)
      requires store.Valid()
      ensures this.store == store && Valid()
    {
      this.store := store;
    }

    /** `getAllAttendanceRecords`: every stored record, in table order. */
    function GetAllAttendanceRecords(): (r: seq<AttendanceRecord>)
      reads this, store
      ensures |r| == |store.records| && forall x :: x in r <==> x in store.records
    {
      store.records
    }

    /**
     * `updateAttendanceRecord`: an unknown id is an error that changes nothing; otherwise the
     * stored record is overwritten with its edited form, which is returned.
     */
    method UpdateAttendanceRecord(recordId: int, updatedRecord: AttendanceRecord)
      returns (result: Result<AttendanceRecord, string>)
      requires Valid()
      modifies store`records
      ensures Valid()
      ensures match FindById(old(store.records), recordId)
        case None => result == Err(NotFoundMessage(recordId)) && store.records == old(store.records)
        case Some(existing) =>
          result == Ok(Edited(existing, updatedRecord)) && store.records == Replaced(old(store.records), result.value)
    {
      var existingRecord := FindById(store.records, recordId);
      if existingRecord.None? {
        return Err(NotFoundMessage(recordId));
      }
      var edited := Edited(existingRecord.value, updatedRecord);
      store.Update(edited);
      return Ok(edited);
    }

    /** `deleteAttendanceRecord`: the record with that id is gone; an unknown id changes nothing. */
    method DeleteAttendanceRecord(recordId: int)
      requires Valid()
      modifies store`records
      ensures Valid()
      ensures store.records == WithoutId(old(store.records), recordId)
    {
      store.DeleteById(recordId);
    }
  }
}
