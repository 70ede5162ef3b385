/** The scheduling item: one surgical case (`Surgery` in types.ts). */
module Surgeries {
  import opened Wrappers
  import opened TimeText
  import opened Catalog
  import opened StableSort
  import opened Seqs

  /** The drape tag: one of the listed types, or the `'Khác'` ("other")
      sentinel whose free text lives in `drapeOther`. */
  datatype Drape = Listed(kind: DrapeType) | OtherDrape

  /** One case. Times are "HH:mm" texts as in the source; `roomId` is `None`
      for an unassigned case; `drapeOther` is `""` when absent; `id` 0 stands
      for the id a new, not yet saved case lacks. */
  datatype Surgery = Surgery(
    id: int,
    patientName: string,
    patientAge: int,
    diagnosis: string,
    procedure: string,
    surgeon: string,
    department: DepartmentId,
    date: string,
    startTime: string,
    endTime: string,
    roomId: Option<int>,
    specialRequirements: seq<string>,
    isConflicting: bool,
    drapeType: Option<Drape>,
    drapeOther: string)

  function StartOf(s: Surgery): int {
    TimeToMinutes(s.startTime)
  }

  function EndOf(s: Surgery): int {
    TimeToMinutes(s.endTime)
  }

  /** `if (s.roomId)`: assigned to a room whose id is truthy (non-zero). */
  predicate HasRoom(s: Surgery) {
    s.roomId.Some? && s.roomId.value != 0
  }

  /** The fields conflict detection reads: id, room and the two times. */
  predicate SameSlot(a: Surgery, b: Surgery) {
    a.id == b.id && a.roomId == b.roomId && a.startTime == b.startTime && a.endTime == b.endTime
  }

  /** Equal in every field except, possibly, the conflict flag. */
  predicate SameExceptFlag(a: Surgery, b: Surgery) {
    a.(isConflicting := false) == b.(isConflicting := false)
  }

  /** Equal in every field except, possibly, the room and the two times. */
  predicate SameExceptPlacement(a: Surgery, b: Surgery) {
    a.(roomId := None, startTime := "", endTime := "") == b.(roomId := None, startTime := "", endTime := "")
  }

  predicate UniqueIds(items: seq<Surgery>) {
    forall i, j :: 0 <= i < |items| && 0 <= j < |items| && items[i].id == items[j].id ==> i == j
  }

  function Ids(items: seq<Surgery>): (r: set<int>)
    ensures forall id :: id in r <==> exists i :: 0 <= i < |items| && items[i].id == id
  {
    set i | 0 <= i < |items| :: items[i].id
  }

  /** Prepending a case keeps the ids unique exactly when its id is new. */
  lemma UniqueIdsCons(x: Surgery, ys: seq<Surgery>)
    ensures UniqueIds([x] + ys) <==> UniqueIds(ys) && x.id !in Ids(ys)
  {
    var xs := [x] + ys;
    if UniqueIds(ys) && x.id !in Ids(ys) {
      ConsFreshUnique(x, ys);
    }
    if UniqueIds(xs) {
      forall i, j | 0 <= i < |ys| && 0 <= j < |ys| && ys[i].id == ys[j].id
        ensures i == j
      {
        assert xs[i + 1].id == xs[j + 1].id;
      }
    }
    if x.id in Ids(ys) {
      var i :| 0 <= i < |ys| && ys[i].id == x.id;
      assert xs[i + 1].id == xs[0].id;
    }
  }

  lemma ConsFreshUnique(x: Surgery, ys: seq<Surgery>)
    requires UniqueIds(ys) && x.id !in Ids(ys)
    ensures UniqueIds([x] + ys)
  {
    var xs := [x] + ys;
    assert forall k :: 0 < k < |xs| ==> xs[k] == ys[k - 1] && xs[k].id != x.id;
    forall i, j | 0 <= i < |xs| && 0 <= j < |xs| && xs[i].id == xs[j].id
      ensures i == j
    {
      if i > 0 && j > 0 {
        assert ys[i - 1].id == ys[j - 1].id;
      }
    }
  }

  /** Appending a case keeps the ids unique exactly when its id is new. */
  lemma UniqueIdsSnoc(xs: seq<Surgery>, x: Surgery)
    ensures UniqueIds(xs + [x]) <==> UniqueIds(xs) && x.id !in Ids(xs)
  {
    var ys := xs + [x];
    assert forall i :: 0 <= i < |xs| ==> ys[i] == xs[i];
    if x.id in Ids(xs) {
      var i :| 0 <= i < |xs| && xs[i].id == x.id;
      assert ys[i].id == ys[|xs|].id;
    }
  }

  /** Dropping cases never creates a duplicate id. */
  lemma {:induction false} UniqueIdsFilter(xs: seq<Surgery>, p: Surgery -> bool)
    ensures UniqueIds(xs) ==> UniqueIds(Filter(xs, p))
  {
    if xs != [] && UniqueIds(xs) {
      assert xs == [xs[0]] + xs[1..];
      UniqueIdsCons(xs[0], xs[1..]);
      UniqueIdsFilter(xs[1..], p);
      var rest := Filter(xs[1..], p);
      if p(xs[0]) {
        forall i | 0 <= i < |rest|
          ensures rest[i].id != xs[0].id
        {
          assert rest[i] in xs[1..];
          var j :| 0 <= j < |xs[1..]| && xs[1..][j] == rest[i];
        }
        UniqueIdsCons(xs[0], rest);
      } else {
        assert Filter(xs, p) == rest;
      }
    }
  }

  /** Pointwise agreement of two sequences on the fields conflict detection
      reads. */
  predicate SameSlots(xs: seq<Surgery>, ys: seq<Surgery>) {
    |xs| == |ys| && forall i :: 0 <= i < |xs| ==> SameSlot(xs[i], ys[i])
  }

  /** The stable sort by start time used by conflict detection and the
      list views. */
  function SortByStart(xs: seq<Surgery>): (r: seq<Surgery>)
    ensures multiset(r) == multiset(xs) && |r| == |xs|
    ensures SortedBy(r, StartOf)
    ensures forall x :: x in r <==> x in xs
  {
    SortSorted(xs, StartOf);
    var r := SortBy(xs, StartOf);
    assert forall x :: x in r <==> x in multiset(r);
    r
  }

  /** Inserting a case with a new id keeps the ids unique. */
  lemma {:induction false} InsertKeepsUnique(x: Surgery, ys: seq<Surgery>)
    requires UniqueIds(ys) && x.id !in Ids(ys)
    ensures UniqueIds(Insert(x, ys, StartOf))
  {
    if ys == [] || StartOf(x) <= StartOf(ys[0]) {
      UniqueIdsCons(x, ys);
    } else {
      var rest := ys[1..];
      assert ys == [ys[0]] + rest;
      UniqueIdsCons(ys[0], rest);
      assert x.id !in Ids(rest) by {
        forall i | 0 <= i < |rest|
          ensures rest[i].id != x.id
        {
          assert rest[i] == ys[i + 1];
        }
      }
      InsertKeepsUnique(x, rest);
      var inserted := Insert(x, rest, StartOf);
      assert ys[0].id !in Ids(inserted) by {
        forall i | 0 <= i < |inserted|
          ensures inserted[i].id != ys[0].id
        {
          assert inserted[i] in multiset(inserted);
          if inserted[i] != x {
            assert inserted[i] in rest;
          }
        }
      }
      UniqueIdsCons(ys[0], inserted);
    }
  }

  /** Sorting by start time keeps the ids unique. */
  lemma {:induction false} SortKeepsUnique(xs: seq<Surgery>)
    requires UniqueIds(xs)
    ensures UniqueIds(SortBy(xs, StartOf))
  {
    if xs != [] {
      var rest := xs[1..];
      assert xs == [xs[0]] + rest;
      UniqueIdsCons(xs[0], rest);
      SortKeepsUnique(rest);
      var sorted := SortBy(rest, StartOf);
      assert xs[0].id !in Ids(sorted) by {
        forall i | 0 <= i < |sorted|
          ensures sorted[i].id != xs[0].id
        {
          assert sorted[i] in multiset(sorted);
          assert sorted[i] in rest;
        }
      }
      InsertKeepsUnique(xs[0], sorted);
    }
  }
}
