/** The read-only views of the case list: the blocks the Gantt board draws
    for a zoom level (`visibleSurgeries`), the cases of the selected day and
    the unassigned sidebar, and the list views grouped by department or by
    room. */
module Projections {
  import opened Wrappers
  import opened Seqs
  import opened TimeText
  import opened Catalog
  import opened StableSort
  import opened Surgeries
  import opened Placement

  // ---------------------------------------------------------------------
  // The Gantt board
  // ---------------------------------------------------------------------

  /** A case the board draws at a zoom level: assigned to a truthy room,
      ending after the window opens and starting before it closes. */
  predicate InWindow(s: Surgery, scale: TimeScale) {
    HasRoom(s)
      && EndOf(s) > ConfigFor(scale).startHour * 60
      && StartOf(s) < ConfigFor(scale).endHour * 60
  }

  function ShownAt(scale: TimeScale): Surgery -> bool {
    (s: Surgery) => InWindow(s, scale)
  }

  /** `visibleSurgeries`: the cases drawn at a zoom level, in list order. */
  function Visible(items: seq<Surgery>, scale: TimeScale): (r: seq<Surgery>)
    ensures |r| <= |items|
    ensures forall s :: s in r <==>
      s in items && HasRoom(s) && EndOf(s) > ConfigFor(scale).Offset() && StartOf(s) < ConfigFor(scale).endHour * 60
  {
    Filter(items, ShownAt(scale))
  }

  /** The blocks of one Gantt row: the visible cases whose room is the
      row's room. */
  function RowBlocks(items: seq<Surgery>, scale: TimeScale, row: int): (r: seq<Surgery>)
    ensures RoomAtRow(row).None? ==> r == []
    ensures RoomAtRow(row).Some? ==> forall s :: s in r <==> s in Visible(items, scale) && s.roomId == RoomAtRow(row)
  {
    match RoomAtRow(row)
    case None => []
    case Some(room) => Filter(Visible(items, scale), (s: Surgery) => s.roomId == Some(room))
  }

  /** Anything a half-day board draws, the full-day board draws too. */
  lemma HalfDayShownAllDay(s: Surgery, scale: TimeScale)
    ensures InWindow(s, scale) ==> InWindow(s, All)
  {
  }

  /** A case that ends after it starts is drawn on the full-day board exactly
      when it is drawn on the morning board or on the afternoon board. */
  lemma FullDayIsBothHalves(s: Surgery)
    requires StartOf(s) < EndOf(s)
    ensures InWindow(s, All) <==> InWindow(s, Morning) || InWindow(s, Afternoon)
  {
  }

  /** Without that requirement the halves miss cases: a 13:00-13:00 case is
      drawn on the full-day board and on neither half. */
  lemma ZeroLengthAtNoonMissesBothHalves(s: Surgery)
    requires HasRoom(s) && s.startTime == "13:00" && s.endTime == "13:00"
    ensures InWindow(s, All)
    ensures !InWindow(s, Morning) && !InWindow(s, Afternoon)
  {
    assert TimeToMinutes("13:00") == 780 by {
      ClockTextMinutes("13:00");
    }
  }

  // ---------------------------------------------------------------------
  // The selected day
  // ---------------------------------------------------------------------

  function OnDate(day: string): Surgery -> bool {
    (s: Surgery) => s.date == day
  }

  function Unplaced(): Surgery -> bool {
    (s: Surgery) => s.roomId.None?
  }

  /** `filteredSurgeries`: the cases of the selected day, in list order. */
  function DayCases(items: seq<Surgery>, day: string): (r: seq<Surgery>)
    ensures forall s :: s in r <==> s in items && s.date == day
    ensures multiset(r) <= multiset(items)
  {
    FilterMultiset(items, OnDate(day));
    Filter(items, OnDate(day))
  }

  /** `unassignedSurgeries`: the day's cases with no room (`roomId === null`). */
  function Unassigned(items: seq<Surgery>, day: string): (r: seq<Surgery>)
    ensures forall s :: s in r <==> s in items && s.date == day && s.roomId.None?
    ensures multiset(r) <= multiset(DayCases(items, day))
  {
    FilterMultiset(DayCases(items, day), Unplaced());
    Filter(DayCases(items, day), Unplaced())
  }

  /** Where a case of the selected day shows up on the board screen: an
      unassigned case in the sidebar and in no row; a case in catalog room
      `k + 1` that meets the window in row `k` and in no other row, never in
      the sidebar. */
  lemma BoardPlacement(items: seq<Surgery>, day: string, scale: TimeScale, s: Surgery)
    requires s in DayCases(items, day)
    ensures s.roomId.None? ==> s in Unassigned(items, day) && forall row :: s !in RowBlocks(DayCases(items, day), scale, row)
    ensures s.roomId.Some? ==> s !in Unassigned(items, day)
    ensures forall row :: s in RowBlocks(DayCases(items, day), scale, row) <==>
      InWindow(s, scale) && RoomAtRow(row) == s.roomId
  {
  }

  /** A case whose room is 0, or any id outside the catalog, is shown
      nowhere on the board screen: room 0 fails the `if (!s.roomId)` test
      and the `roomId === null` test alike, and no row carries another id. */
  lemma OffCatalogRoomShownNowhere(items: seq<Surgery>, day: string, scale: TimeScale, s: Surgery)
    requires s.roomId.Some? && !(1 <= s.roomId.value <= 10)
    ensures s !in Unassigned(items, day)
    ensures forall row :: s !in RowBlocks(DayCases(items, day), scale, row)
    ensures s.roomId == Some(0) ==> s !in Visible(items, scale)
  {
  }

  // ---------------------------------------------------------------------
  // The list views
  // ---------------------------------------------------------------------

  /** The cases whose key is `v`. */
  function KeyEquals<K(==)>(key: Surgery -> K, v: K): Surgery -> bool {
    (s: Surgery) => key(s) == v
  }

  /** The cases whose key is one of `keys`. */
  function KeyAmong<K(==)>(key: Surgery -> K, keys: seq<K>): Surgery -> bool {
    (s: Surgery) => key(s) in keys
  }

  /** `groupedSurgeries` with the filter at "all": for each catalog entry,
      its cases stably sorted by start time. */
  function Grouped<K(==)>(items: seq<Surgery>, keys: seq<K>, key: Surgery -> K): (groups: seq<seq<Surgery>>)
    ensures |groups| == |keys|
    ensures forall k :: 0 <= k < |groups| ==> SortedBy(groups[k], StartOf)
    ensures forall k :: 0 <= k < |groups| ==>
      multiset(groups[k]) == multiset(Filter(items, KeyEquals(key, keys[k])))
    ensures forall k, s :: 0 <= k < |groups| ==> (s in groups[k] <==> s in items && key(s) == keys[k])
  {
    seq(|keys|, k requires 0 <= k < |keys| => SortByStart(Filter(items, KeyEquals(key, keys[k]))))
  }

  /** Within a group, cases that start at the same minute keep their list
      order. */
  lemma GroupedStable<K>(items: seq<Surgery>, keys: seq<K>, key: Surgery -> K, k: int, t: int)
    requires 0 <= k < |keys|
    ensures Filter(Grouped(items, keys, key)[k], KeyIs(StartOf, t))
      == Filter(Filter(items, KeyEquals(key, keys[k])), KeyIs(StartOf, t))
  {
    SortStable(Filter(items, KeyEquals(key, keys[k])), StartOf, t);
  }

  /** All the cases of a sequence of groups, counted with multiplicity. */
  function Bag(groups: seq<seq<Surgery>>): multiset<Surgery> {
    if groups == [] then multiset{} else multiset(groups[0]) + Bag(groups[1..])
  }

  predicate Distinct<K(==)>(keys: seq<K>) {
    forall i, j :: 0 <= i < j < |keys| ==> keys[i] != keys[j]
  }

  /** With distinct keys the groups partition the cases whose key is listed:
      each such case lands in exactly one group, as often as it occurs. */
  lemma {:induction false} GroupsPartition<K>(items: seq<Surgery>, keys: seq<K>, key: Surgery -> K)
    requires Distinct(keys)
    ensures Bag(Grouped(items, keys, key)) == multiset(Filter(items, KeyAmong(key, keys)))
  {
    if keys == [] {
      FilterMultiset(items, KeyAmong(key, keys));
      assert multiset(Filter(items, KeyAmong(key, keys))) == multiset{};
    } else {
      var groups := Grouped(items, keys, key);
      var rest := keys[1..];
      assert groups[1..] == Grouped(items, rest, key);
      DistinctTail(keys);
      GroupsPartition(items, rest, key);
      assert Bag(groups) == multiset(groups[0]) + Bag(groups[1..]);
      assert multiset(groups[0]) == multiset(Filter(items, KeyEquals(key, keys[0])));
      SplitFirstKey(items, keys[0], rest, key);
      assert keys == [keys[0]] + rest;
    }
  }

  lemma DistinctTail<K>(keys: seq<K>)
    requires Distinct(keys) && keys != []
    ensures Distinct(keys[1..]) && keys[0] !in keys[1..]
  {
    var rest := keys[1..];
    forall i | 0 <= i < |rest|
      ensures rest[i] != keys[0]
    {
      assert rest[i] == keys[i + 1];
    }
  }

  /** The cases keyed `v`, together with the cases keyed among `rest`, are
      the cases keyed among `[v] + rest` when `v` is not in `rest`. */
  lemma SplitFirstKey<K>(items: seq<Surgery>, v: K, rest: seq<K>, key: Surgery -> K)
    requires v !in rest
    ensures multiset(Filter(items, KeyEquals(key, v))) + multiset(Filter(items, KeyAmong(key, rest)))
      == multiset(Filter(items, KeyAmong(key, [v] + rest)))
  {
    var head := multiset(Filter(items, KeyEquals(key, v)));
    var tail := multiset(Filter(items, KeyAmong(key, rest)));
    FilterMultiset(items, KeyEquals(key, v));
    FilterMultiset(items, KeyAmong(key, rest));
    FilterMultiset(items, KeyAmong(key, [v] + rest));
    forall s
      ensures (head + tail)[s] == multiset(Filter(items, KeyAmong(key, [v] + rest)))[s]
    {
      assert key(s) in [v] + rest <==> key(s) == v || key(s) in rest;
      assert head[s] == if key(s) == v then multiset(items)[s] else 0;
      assert tail[s] == if key(s) in rest then multiset(items)[s] else 0;
    }
  }

  /** The department ids in catalog order (`DEPARTMENTS`). */
  function DepartmentKeys(): (keys: seq<DepartmentId>)
    ensures |keys| == |Departments|
    ensures forall k :: 0 <= k < |keys| ==> keys[k] == Departments[k].id
  {
    seq(|Departments|, k requires 0 <= k < |Departments| => Departments[k].id)
  }

  /** The room ids in catalog order, as the `roomId === item.id` test sees
      them (`OPERATING_ROOMS`). */
  function RoomKeys(): (keys: seq<Option<int>>)
    ensures |keys| == |OperatingRooms|
    ensures forall k :: 0 <= k < |keys| ==> keys[k] == Some(OperatingRooms[k].id)
  {
    seq(|OperatingRooms|, k requires 0 <= k < |OperatingRooms| => Some(OperatingRooms[k].id))
  }

  function DepartmentOf(): Surgery -> DepartmentId {
    (s: Surgery) => s.department
  }

  function RoomOf(): Surgery -> Option<int> {
    (s: Surgery) => s.roomId
  }

  /** The list view grouped by department: one group per catalog department. */
  function ByDepartment(items: seq<Surgery>): (groups: seq<seq<Surgery>>)
    ensures |groups| == |Departments|
    ensures forall k :: 0 <= k < |groups| ==> SortedBy(groups[k], StartOf)
    ensures forall k, s :: 0 <= k < |groups| ==> (s in groups[k] <==> s in items && s.department == Departments[k].id)
  {
    Grouped(items, DepartmentKeys(), DepartmentOf())
  }

  /** The list view grouped by room: one group per catalog room. */
  function ByRoom(items: seq<Surgery>): (groups: seq<seq<Surgery>>)
    ensures |groups| == |OperatingRooms|
    ensures forall k :: 0 <= k < |groups| ==> SortedBy(groups[k], StartOf)
    ensures forall k, s :: 0 <= k < |groups| ==> (s in groups[k] <==> s in items && s.roomId == Some(OperatingRooms[k].id))
  {
    Grouped(items, RoomKeys(), RoomOf())
  }

  /** Every case appears in the department view exactly as often as in the
      list: each department is listed once, and every case has one. */
  lemma DepartmentViewShowsEveryCase(items: seq<Surgery>)
    ensures Bag(ByDepartment(items)) == multiset(items)
  {
    var keys := DepartmentKeys();
    assert Filter(items, KeyAmong(DepartmentOf(), keys)) == items by {
      DepartmentKeysCover();
      FilterAll(items, KeyAmong(DepartmentOf(), keys));
    }
    assert Bag(ByDepartment(items)) == multiset(Filter(items, KeyAmong(DepartmentOf(), keys))) by {
      DepartmentKeysCover();
      GroupsPartition(items, keys, DepartmentOf());
    }
  }

  /** Every department id is listed, once. */
  lemma DepartmentKeysCover()
    ensures Distinct(DepartmentKeys())
    ensures forall s: Surgery :: KeyAmong(DepartmentOf(), DepartmentKeys())(s)
  {
    var keys := DepartmentKeys();
    DepartmentCatalogCovers(Orthopedics);
    forall s: Surgery
      ensures s.department in keys
    {
      DepartmentCatalogCovers(s.department);
      var k :| 0 <= k < |Departments| && Departments[k].id == s.department;
      assert keys[k] == s.department;
    }
  }

  /** The room view shows exactly the cases whose room is in the catalog,
      each as often as it occurs; unassigned and off-catalog cases are in
      no group. */
  lemma RoomViewShowsCatalogCases(items: seq<Surgery>)
    ensures Bag(ByRoom(items)) == multiset(Filter(items, (s: Surgery) => s.roomId.Some? && 1 <= s.roomId.value <= 10))
  {
    var keys := RoomKeys();
    RoomCatalogShape();
    assert Distinct(keys);
    GroupsPartition(items, keys, RoomOf());
    forall s
      ensures KeyAmong(RoomOf(), keys)(s) <==> s.roomId.Some? && 1 <= s.roomId.value <= 10
    {
      if s.roomId.Some? && 1 <= s.roomId.value <= 10 {
        assert keys[s.roomId.value - 1] == s.roomId;
      }
    }
    FilterSamePredicate(items, KeyAmong(RoomOf(), keys), (s: Surgery) => s.roomId.Some? && 1 <= s.roomId.value <= 10);
  }

  /** Filtering by two predicates that agree everywhere gives the same
      sequence. */
  lemma {:induction false} FilterSamePredicate(xs: seq<Surgery>, p: Surgery -> bool, q: Surgery -> bool)
    requires forall s :: p(s) == q(s)
    ensures Filter(xs, p) == Filter(xs, q)
  {
    if xs != [] {
      FilterSamePredicate(xs[1..], p, q);
    }
  }
}
