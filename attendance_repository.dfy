/**
 * The attendance table and its finders. The table is a sequence of saved records in the order of
 * their generated ids; the finders are read-only queries over it.
 */
module AttendanceRepository {
  import opened Wrappers
  import opened AttendanceRecord

  /**
   * Check-in time `a` sorts no later than `b` in a newest-first ordering. A record without a
   * check-in time sorts after every record that has one.
   */
  predicate NotOlder(a: Option<int>, b: Option<int>) {
    b.None? || (a.Some? && a.value >= b.value)
  }

  /** `NotOlder` is a total preorder, so sorting by it is well defined up to ties. */
  lemma NotOlderIsTotalPreorder(a: Option<int>, b: Option<int>, c: Option<int>)
    ensures NotOlder(a, a)
    ensures NotOlder(a, b) || NotOlder(b, a)
    ensures NotOlder(a, b) && NotOlder(b, c) ==> NotOlder(a, c)
  {
  }

  /** Records ordered by check-in time, newest first. */
  ghost predicate NewestFirst(s: seq<AttendanceRecord>) {
    forall i, j :: 0 <= i < j < |s| ==> NotOlder(s[i].checkInTime, s[j].checkInTime)
  }

  /** A record not older than any record of a newest-first sequence can go in front of it. */
  lemma PrependNewest(x: AttendanceRecord, s: seq<AttendanceRecord>)
    requires NewestFirst(s)
    requires forall j :: 0 <= j < |s| ==> NotOlder(x.checkInTime, s[j].checkInTime)
    ensures NewestFirst([x] + s)
  {
    forall i, j | 0 <= i < j < |[x] + s| ensures NotOlder(([x] + s)[i].checkInTime, ([x] + s)[j].checkInTime) {
      if i > 0 {
        assert ([x] + s)[i] == s[i - 1] && ([x] + s)[j] == s[j - 1];
      }
    }
  }

  /** `r` placed into a newest-first sequence before the first record it is not older than. */
  function InsertNewestFirst(r: AttendanceRecord, s: seq<AttendanceRecord>): (t: seq<AttendanceRecord>)
    requires NewestFirst(s)
    ensures NewestFirst(t)
    ensures multiset(t) == multiset(s) + multiset{r}
  {
    if s == [] then [r]
    else if NotOlder(r.checkInTime, s[0].checkInTime) then
      PrependNewest(r, s);
      [r] + s
    else
      var rest := InsertNewestFirst(r, s[1..]);
      assert s == [s[0]] + s[1..];
      assert forall j :: 0 <= j < |rest| ==> NotOlder(s[0].checkInTime, rest[j].checkInTime) by {
        forall j | 0 <= j < |rest| ensures NotOlder(s[0].checkInTime, rest[j].checkInTime) {
          assert rest[j] in multiset(rest);
          if rest[j] != r {
            assert rest[j] in multiset(s[1..]);
            var k :| 0 <= k < |s[1..]| && s[1..][k] == rest[j];
            assert s[k + 1] == rest[j];
          }
        }
      }
      PrependNewest(s[0], rest);
      [s[0]] + rest
  }

  /** The records reordered newest first (an insertion sort; ties keep their table order). */
  function SortNewestFirst(s: seq<AttendanceRecord>): (t: seq<AttendanceRecord>)
    ensures NewestFirst(t)
    ensures multiset(t) == multiset(s)
  {
    if s == [] then []
    else
      assert s == [s[0]] + s[1..];
      InsertNewestFirst(s[0], SortNewestFirst(s[1..]))
  }

  /**
   * `findByEmployeeNumberOrderByCheckInTimeDesc`: every record of that employee, each as often as
   * it is stored, none of another employee, newest check-in first.
   */
  function FindByEmployeeNumberOrderByCheckInTimeDesc(records: seq<AttendanceRecord>, employeeNumber: string)
    : (r: seq<AttendanceRecord>)
    ensures NewestFirst(r)
    ensures forall x :: multiset(r)[x] == if x.employeeNumber == employeeNumber then multiset(records)[x] else 0
    ensures forall x :: x in r <==> x in records && x.employeeNumber == employeeNumber
  {
    var mine := Filter(records, (x: AttendanceRecord) => x.employeeNumber == employeeNumber);
    var r := SortNewestFirst(mine);
    assert forall x :: x in r <==> x in mine by {
      forall x ensures x in r <==> x in mine {
        assert x in r <==> x in multiset(r);
        assert x in mine <==> x in multiset(mine);
      }
    }
    r
  }

  /** The position of the first record with that status, if there is one. */
  function FirstWithStatus(s: seq<AttendanceRecord>, status: AttendanceStatus): (i: Option<nat>)
    ensures i.Some? ==> i.value < |s| && s[i.value].status == Some(status)
                        && forall j :: 0 <= j < i.value ==> s[j].status != Some(status)
    ensures i.None? <==> forall j :: 0 <= j < |s| ==> s[j].status != Some(status)
  {
    if s == [] then None
    else if s[0].status == Some(status) then Some(0)
    else match FirstWithStatus(s[1..], status)
      case None => None
      case Some(k) => Some(k + 1)
  }

  /**
   * `findFirstByEmployeeNumberAndStatusOrderByCheckInTimeDesc`: a record of that employee with
   * that status whose check-in time is not older than any other such record's, or None exactly
   * when the employee has no record with that status. The record is one the first finder lists.
   */
  function FindFirstByEmployeeNumberAndStatusOrderByCheckInTimeDesc(records: seq<AttendanceRecord>,
                                                                    employeeNumber: string,
                                                                    status: AttendanceStatus)
    : (r: Option<AttendanceRecord>)
    ensures r.Some? ==> r.value in records && r.value.employeeNumber == employeeNumber && r.value.status == Some(status)
    ensures r.Some? ==> r.value in FindByEmployeeNumberOrderByCheckInTimeDesc(records, employeeNumber)
    ensures r.Some? ==> forall x :: x in records && x.employeeNumber == employeeNumber && x.status == Some(status)
                                    ==> NotOlder(r.value.checkInTime, x.checkInTime)
    ensures r.None? <==> forall x :: x in records && x.employeeNumber == employeeNumber ==> x.status != Some(status)
  {
    var l := FindByEmployeeNumberOrderByCheckInTimeDesc(records, employeeNumber);
    match FirstWithStatus(l, status)
    case None => None
    case Some(i) =>
      FirstWithStatusIsNewest(l, status, i);
      Some(l[i])
  }

  /** In a newest-first sequence the first record with a status is not older than any other with it. */
  lemma FirstWithStatusIsNewest(l: seq<AttendanceRecord>, status: AttendanceStatus, i: nat)
    requires NewestFirst(l)
    requires FirstWithStatus(l, status) == Some(i)
    ensures forall x :: x in l && x.status == Some(status) ==> NotOlder(l[i].checkInTime, x.checkInTime)
  {
    forall x | x in l && x.status == Some(status) ensures NotOlder(l[i].checkInTime, x.checkInTime) {
      var j :| 0 <= j < |l| && l[j] == x;
      if i < j {
        assert NotOlder(l[i].checkInTime, l[j].checkInTime);
      }
    }
  }

  /**
   * The invariant the attendance service keeps: no employee has two records in CHECKED_IN status.
   */
  ghost predicate AtMostOneCheckedIn(records: seq<AttendanceRecord>) {
    forall i, j ::
      (0 <= i < |records| && 0 <= j < |records| && records[i].IsCheckedIn() && records[j].IsCheckedIn() &&
       records[i].employeeNumber == records[j].employeeNumber) ==> i == j
  }

  /** Every saved record has an id, and the ids rise strictly along the table. */
  ghost predicate IdsIncreasing(s: seq<AttendanceRecord>) {
    (forall i :: 0 <= i < |s| ==> s[i].id.Some?) &&
    (forall i, j :: 0 <= i < j < |s| ==> s[i].id.value < s[j].id.value)
  }

  /** `findById`: the record with that id, or None exactly when no record has it. */
  function FindById(records: seq<AttendanceRecord>, id: int): (r: Option<AttendanceRecord>)
    ensures r.Some? ==> r.value in records && r.value.id == Some(id)
    ensures r.None? <==> forall x :: x in records ==> x.id != Some(id)
  {
    if records == [] then None
    else if records[0].id == Some(id) then Some(records[0])
    else
      assert records == [records[0]] + records[1..];
      FindById(records[1..], id)
  }

  /** With distinct ids a record is determined by its id. */
  lemma IdDeterminesRecord(records: seq<AttendanceRecord>, x: AttendanceRecord, y: AttendanceRecord)
    requires IdsIncreasing(records)
    requires x in records && y in records && x.id == y.id
    ensures x == y
  {
    var i :| 0 <= i < |records| && records[i] == x;
    var j :| 0 <= j < |records| && records[j] == y;
    if i < j {
      assert records[i].id.value < records[j].id.value;
    } else if j < i {
      assert records[j].id.value < records[i].id.value;
    }
  }

  /** The table after saving `r` over the stored record with the same id. */
  function Replaced(records: seq<AttendanceRecord>, r: AttendanceRecord): (t: seq<AttendanceRecord>)
    ensures |t| == |records|
    ensures forall i :: 0 <= i < |t| ==> t[i] == if records[i].id == r.id then r else records[i]
  {
    seq(|records|, i requires 0 <= i < |records| => if records[i].id == r.id then r else records[i])
  }

  /** Saving over a stored id keeps the ids, so the table's id order survives. */
  lemma ReplacedKeepsIds(records: seq<AttendanceRecord>, r: AttendanceRecord)
    requires IdsIncreasing(records)
    ensures IdsIncreasing(Replaced(records, r))
    ensures forall i :: 0 <= i < |records| ==> Replaced(records, r)[i].id == records[i].id
  {
  }

  /** `deleteById`: the table without the record with that id; no change when there is none. */
  function WithoutId(records: seq<AttendanceRecord>, id: int): (t: seq<AttendanceRecord>)
    ensures forall x :: x in t <==> x in records && x.id != Some(id)
    ensures (forall x :: x in records ==> x.id != Some(id)) ==> t == records
  {
    if records == [] then []
    else
      var rest := WithoutId(records[1..], id);
      assert records == [records[0]] + records[1..];
      if records[0].id == Some(id) then rest else [records[0]] + rest
  }

  /** A record with an id below every id of an id-ordered table can go in front of it. */
  lemma PrependKeepsIdOrder(x: AttendanceRecord, s: seq<AttendanceRecord>)
    requires IdsIncreasing(s) && x.id.Some?
    requires forall k :: 0 <= k < |s| ==> x.id.value < s[k].id.value
    ensures IdsIncreasing([x] + s)
  {
    forall i, j | 0 <= i < j < |[x] + s| ensures ([x] + s)[i].id.value < ([x] + s)[j].id.value {
      if i > 0 {
        assert ([x] + s)[i] == s[i - 1] && ([x] + s)[j] == s[j - 1];
      }
    }
  }

  /** Removing a record keeps the table's id order. */
  lemma {:induction false} WithoutIdKeepsIdOrder(records: seq<AttendanceRecord>, id: int)
    requires IdsIncreasing(records)
    ensures IdsIncreasing(WithoutId(records, id))
  {
    if records != [] {
      var rest := WithoutId(records[1..], id);
      assert IdsIncreasing(records[1..]);
      WithoutIdKeepsIdOrder(records[1..], id);
      if records[0].id != Some(id) {
        forall k | 0 <= k < |rest| ensures records[0].id.value < rest[k].id.value {
          assert rest[k] in records[1..];
          var m :| 0 <= m < |records[1..]| && records[1..][m] == rest[k];
          assert records[m + 1] == rest[k];
        }
        PrependKeepsIdOrder(records[0], rest);
        assert WithoutId(records, id) == [records[0]] + rest;
      }
    }
  }

  /** The attendance table (`attendanceRepository`): the saved records and the next id to hand out. */
  class AttendanceStore {
    var records: seq<AttendanceRecord>
    var nextId: int

    ghost predicate Valid()
      reads this
    {
      IdsIncreasing(records) && forall i :: 0 <= i < |records| ==> records[i].id.value < nextId
    }

    constructor ()
      ensures Valid() && records == []
    {
      records := [];
      nextId := 1;
    }

    /** `save` of a record without id: the record gets the next id and is appended. */
    method Insert(r: AttendanceRecord) returns (saved: AttendanceRecord)
      requires Valid()
      requires r.id.None?
      modifies this`records, this`nextId
      ensures Valid()
      ensures saved == r.(id := Some(old(nextId)))
      ensures records == old(records) + [saved]
      ensures nextId == old(nextId) + 1
    {
      saved := r.(id := Some(nextId));
      records := records + [saved];
      nextId := nextId + 1;
    }

    /** `save` of a record whose id is stored: that row is overwritten with it. */
    method Update(r: AttendanceRecord)
      requires Valid()
      requires r.id.Some? && FindById(records, r.id.value).Some?
      modifies this`records
      ensures Valid()
      ensures records == Replaced(old(records), r)
    {
      ReplacedKeepsIds(records, r);
      records := Replaced(records, r);
    }

    /** `deleteById`: the row with that id is removed; an unknown id changes nothing. */
    method DeleteById(id: int)
      requires Valid()
      modifies this`records
      ensures Valid()
      ensures records == WithoutId(old(records), id)
    {
      ghost var before := records;
      WithoutIdKeepsIdOrder(records, id);
      records := WithoutId(records, id);
      forall i | 0 <= i < |records| ensures records[i].id.value < nextId {
        assert records[i] in before;
      }
    }
  }
}
