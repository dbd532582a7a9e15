/**
 * The master registry as the core sees it: the read-only person table of the automation
 * database and its detailed-information query (joined with the phone table). Nothing in the
 * core writes to it.
 */
module PersonRepository {
  import opened Wrappers

  /** A row of the registry's person table; `sicilNo` (the employee number) is its primary key. */
  datatype Person = Person(sicilNo: int, tcKimlikNo: int, adi: Option<string>, soyadi: Option<string>)

  /**
   * What a Spring Data finder returning `Optional` yields: no row, one row, or several rows
   * (in which case it throws IncorrectResultSizeDataAccessException).
   */
  datatype Lookup<+T> = NotFound | Found(value: T) | NonUnique(count: nat)

  /**
   * The registry: the person table, and the detailed-information query as a partial map from
   * (tcKimlikNo, sicilNo) to the row's columns by label (a column holding SQL NULL is absent).
   */
  datatype Registry = Registry(persons: seq<Person>, details: map<(int, int), map<string, string>>)

  /** The primary-key guarantee of the person table: no two rows share an employee number. */
  ghost predicate WellFormed(r: Registry) {
    forall i, j :: 0 <= i < j < |r.persons| ==> r.persons[i].sicilNo != r.persons[j].sicilNo
  }

  /** The Optional an at-most-one-row query yields for the rows it matched. */
  function Unique<T>(rows: seq<T>): (r: Lookup<T>)
    ensures r.NotFound? <==> rows == []
    ensures r.Found? <==> |rows| == 1
    ensures r.Found? ==> r.value == rows[0]
    ensures r.NonUnique? ==> r.count == |rows| >= 2
  {
    if |rows| == 0 then NotFound else if |rows| == 1 then Found(rows[0]) else NonUnique(|rows|)
  }

  function FirstWithSicilNo(persons: seq<Person>, sicilNo: int): (r: Option<Person>)
    ensures r.Some? ==> r.value in persons && r.value.sicilNo == sicilNo
    ensures r.None? <==> forall p :: p in persons ==> p.sicilNo != sicilNo
  {
    if persons == [] then None
    else if persons[0].sicilNo == sicilNo then Some(persons[0])
    else FirstWithSicilNo(persons[1..], sicilNo)
  }

  /** `findBySicilNo`: the person with that employee number (a primary-key lookup). */
  function FindBySicilNo(r: Registry, sicilNo: int): (res: Option<Person>)
    ensures res.Some? ==> res.value in r.persons && res.value.sicilNo == sicilNo
    ensures res.None? <==> forall p :: p in r.persons ==> p.sicilNo != sicilNo
    ensures WellFormed(r) && res.Some? ==> forall p :: p in r.persons && p.sicilNo == sicilNo ==> p == res.value
  {
    FirstWithSicilNo(r.persons, sicilNo)
  }

  /** `findBySicilNoAndTcKimlikNo`: the person with that employee number, if it also has that national ID. */
  function FindBySicilNoAndTcKimlikNo(r: Registry, sicilNo: int, tcKimlikNo: int): (res: Option<Person>)
    requires WellFormed(r)
    ensures res.Some? <==> exists p :: p in r.persons && p.sicilNo == sicilNo && p.tcKimlikNo == tcKimlikNo
    ensures res.Some? ==> res.value in r.persons && res.value.sicilNo == sicilNo && res.value.tcKimlikNo == tcKimlikNo
  {
    match FindBySicilNo(r, sicilNo)
    case Some(p) => if p.tcKimlikNo == tcKimlikNo then Some(p) else None
    case None => None
  }

  /** `findByTcKimlikNo`: national IDs are not a key of the table, so several rows may match. */
  function FindByTcKimlikNo(r: Registry, tcKimlikNo: int): (res: Lookup<Person>)
    ensures res.NotFound? <==> forall p :: p in r.persons ==> p.tcKimlikNo != tcKimlikNo
    ensures res.Found? ==> res.value in r.persons && res.value.tcKimlikNo == tcKimlikNo
    ensures res.Found? ==> forall p :: p in r.persons && p.tcKimlikNo == tcKimlikNo ==> p == res.value
  {
    var rows := Filter(r.persons, (p: Person) => p.tcKimlikNo == tcKimlikNo);

    Unique(rows)
  }

  /** A table keyed by employee number holds each row at most once. */
  lemma {:induction false} KeyedRowsAreDistinct(persons: seq<Person>, p: Person)
    requires forall i, j :: 0 <= i < j < |persons| ==> persons[i].sicilNo != persons[j].sicilNo
    ensures multiset(persons)[p] <= 1
  {
    if persons != [] {
      assert persons == [persons[0]] + persons[1..];
      KeyedRowsAreDistinct(persons[1..], p);
      if persons[0] == p {
        assert forall k :: 0 <= k < |persons[1..]| ==> persons[1..][k] != p by {
          forall k | 0 <= k < |persons[1..]|
            ensures persons[1..][k] != p
          {
            assert persons[1..][k] == persons[k + 1];
          }
        }
        assert p !in persons[1..];
      }
    }
  }

  /** When exactly one person has a national ID, the lookup by national ID finds that person. */
  lemma SoleNationalIdMatchIsFound(r: Registry, tcKimlikNo: int, p: Person)
    requires WellFormed(r) && p in r.persons && p.tcKimlikNo == tcKimlikNo
    requires forall q :: q in r.persons && q.tcKimlikNo == tcKimlikNo ==> q == p
    ensures FindByTcKimlikNo(r, tcKimlikNo) == Found(p)
  {
    var rows := Filter(r.persons, (q: Person) => q.tcKimlikNo == tcKimlikNo);
    KeyedRowsAreDistinct(r.persons, p);
    assert multiset(rows)[p] <= 1;
    assert multiset(rows) == multiset{p};
  }

  /** `findDetailedPersonInfoByTckimlAndBrkodu`: the detailed row for that (national ID, employee number). */
  function FindDetailedPersonInfo(r: Registry, tckiml: int, psicno: int): Option<map<string, string>> {
    if (tckiml, psicno) in r.details then Some(r.details[(tckiml, psicno)]) else None
  }
}
