/** The conflict detector (`checkConflicts`): cases are grouped by truthy
    room id, each group is stably sorted by start time, and both members of
    every ADJACENT pair whose earlier case ends after the next one starts are
    flagged. Flags are collected by id and written onto every case. The case
    date is never read, and only adjacent pairs are compared. */
module Conflicts {
  import opened Wrappers
  import opened Seqs
  import opened StableSort
  import opened TimeText
  import opened Surgeries

  /** The cases assigned to room `r`. */
  function InRoom(r: int): Surgery -> bool {
    (s: Surgery) => s.roomId == Some(r)
  }

  /** `surgeriesByRoom[r]`: the cases of room `r` in input order. */
  function RoomItems(items: seq<Surgery>, r: int): (xs: seq<Surgery>)
    ensures forall s :: s in xs <==> s in items && s.roomId == Some(r)
  {
    Filter(items, InRoom(r))
  }

  /** The room's cases after the stable sort by start time. */
  function RoomSchedule(items: seq<Surgery>, r: int): (xs: seq<Surgery>)
    ensures forall s :: s in xs <==> s in items && s.roomId == Some(r)
    ensures multiset(xs) == multiset(RoomItems(items, r))
    ensures SortedBy(xs, StartOf)
  {
    SortByStart(RoomItems(items, r))
  }

  /** The keys of `surgeriesByRoom`: every truthy room id in use. */
  function AssignedRooms(items: seq<Surgery>): (rooms: set<int>)
    ensures forall r :: r in rooms <==> exists s :: s in items && HasRoom(s) && s.roomId.value == r
  {
    set s | s in items && HasRoom(s) :: s.roomId.value
  }

  /** Case `k` of a sorted room ends after case `k + 1` starts. */
  predicate OverlapsNext(xs: seq<Surgery>, k: int)
    requires 0 <= k < |xs| - 1
  {
    EndOf(xs[k]) > StartOf(xs[k + 1])
  }

  /** The ids the adjacent-pair scan adds for one sorted room. */
  function FlaggedIn(xs: seq<Surgery>): set<int> {
    (set k | 0 <= k < |xs| - 1 && OverlapsNext(xs, k) :: xs[k].id)
    + (set k | 0 <= k < |xs| - 1 && OverlapsNext(xs, k) :: xs[k + 1].id)
  }

  /** `conflictingIds`, gathered over every room. */
  function ConflictingIds(items: seq<Surgery>): set<int> {
    set r, id | r in AssignedRooms(items) && id in FlaggedIn(RoomSchedule(items, r)) :: id
  }

  /** `checkConflicts`: the same cases in the same order, each carrying a
      fresh flag that says whether its id was flagged in some room. */
  function CheckConflicts(items: seq<Surgery>): (r: seq<Surgery>)
    ensures |r| == |items|
    ensures forall i :: 0 <= i < |r| ==> SameExceptFlag(r[i], items[i]) && SameSlot(r[i], items[i])
    ensures forall i :: 0 <= i < |r| ==> (r[i].isConflicting <==> items[i].id in ConflictingIds(items))
  {
    var ids := ConflictingIds(items);
    seq(|items|, i requires 0 <= i < |items| => items[i].(isConflicting := items[i].id in ids))
  }

  /** The ids the pair at `k` adds: both, when it overlaps. */
  function PairIds(xs: seq<Surgery>, k: int): set<int>
    requires 0 <= k < |xs| - 1
  {
    if OverlapsNext(xs, k) then {xs[k].id, xs[k + 1].id} else {}
  }

  /** The ids flagged by the pairs starting before position `n`. */
  predicate FlaggedBefore(xs: seq<Surgery>, n: int, id: int) {
    exists k :: 0 <= k < n && k < |xs| - 1 && id in PairIds(xs, k)
  }

  /** The loop of the scan over one sorted room, with its set of ids. */
  method ScanAdjacent(xs: seq<Surgery>) returns (flagged: set<int>)
    ensures flagged == FlaggedIn(xs)
  {
    flagged := {};
    var i := 0;
    while i < |xs| - 1
      invariant 0 <= i
      invariant forall id :: id in flagged <==> FlaggedBefore(xs, i, id)
    {
      ghost var before := flagged;
      if EndOf(xs[i]) > StartOf(xs[i + 1]) {
        flagged := flagged + {xs[i].id, xs[i + 1].id};
      }
      assert flagged == before + PairIds(xs, i);
      ScanStep(xs, i);
      i := i + 1;
    }
    forall id
      ensures id in flagged <==> id in FlaggedIn(xs)
    {
      FlaggedInMeans(xs, id);
      if id in FlaggedIn(xs) {
        var k :| 0 <= k < |xs| - 1 && OverlapsNext(xs, k) && (xs[k].id == id || xs[k + 1].id == id);
        assert id in PairIds(xs, k);
      }
    }
  }

  /** One more pair adds its ids, and nothing else. */
  lemma ScanStep(xs: seq<Surgery>, i: int)
    requires 0 <= i < |xs| - 1
    ensures forall id :: FlaggedBefore(xs, i + 1, id) <==> FlaggedBefore(xs, i, id) || id in PairIds(xs, i)
  {
    forall id | FlaggedBefore(xs, i + 1, id)
      ensures FlaggedBefore(xs, i, id) || id in PairIds(xs, i)
    {
      var k :| 0 <= k < i + 1 && k < |xs| - 1 && id in PairIds(xs, k);
      if k < i {
        assert FlaggedBefore(xs, i, id);
      }
    }
    forall id | FlaggedBefore(xs, i, id) || id in PairIds(xs, i)
      ensures FlaggedBefore(xs, i + 1, id)
    {
      if FlaggedBefore(xs, i, id) {
        var k :| 0 <= k < i && k < |xs| - 1 && id in PairIds(xs, k);
        assert k < i + 1;
      } else {
        assert i < i + 1 && id in PairIds(xs, i);
      }
    }
  }

  // ---------------------------------------------------------------------
  // What an id in the flagged set means
  // ---------------------------------------------------------------------

  lemma FlaggedInMeans(xs: seq<Surgery>, id: int)
    ensures id in FlaggedIn(xs) <==>
      exists k :: 0 <= k < |xs| - 1 && OverlapsNext(xs, k) && (xs[k].id == id || xs[k + 1].id == id)
  {
    if id in FlaggedIn(xs) {
      if id in (set k | 0 <= k < |xs| - 1 && OverlapsNext(xs, k) :: xs[k].id) {
        var k :| 0 <= k < |xs| - 1 && OverlapsNext(xs, k) && xs[k].id == id;
      } else {
        var k :| 0 <= k < |xs| - 1 && OverlapsNext(xs, k) && xs[k + 1].id == id;
      }
    }
  }

  lemma ConflictingIdsMeans(items: seq<Surgery>, id: int)
    ensures id in ConflictingIds(items) <==>
      exists r :: r in AssignedRooms(items) && id in FlaggedIn(RoomSchedule(items, r))
  {
  }

  /** A flagged id belongs to a case of some assigned room. */
  lemma FlaggedIdHasAssignedCase(items: seq<Surgery>, id: int)
    requires id in ConflictingIds(items)
    ensures exists s :: s in items && HasRoom(s) && s.id == id
  {
    ConflictingIdsMeans(items, id);
    var r :| r in AssignedRooms(items) && id in FlaggedIn(RoomSchedule(items, r));
    var xs := RoomSchedule(items, r);
    FlaggedInMeans(xs, id);
    var k :| 0 <= k < |xs| - 1 && OverlapsNext(xs, k) && (xs[k].id == id || xs[k + 1].id == id);
    var s := if xs[k].id == id then xs[k] else xs[k + 1];
    assert s in xs;
    var w :| w in items && HasRoom(w) && w.roomId.value == r;
  }

  // ---------------------------------------------------------------------
  // The result depends only on ids, rooms and times
  // ---------------------------------------------------------------------

  lemma ConsSameSlots(x: Surgery, y: Surgery, a: seq<Surgery>, b: seq<Surgery>)
    requires SameSlot(x, y) && SameSlots(a, b)
    ensures SameSlots([x] + a, [y] + b)
  {
    assert forall i :: 1 <= i < |a| + 1 ==> ([x] + a)[i] == a[i - 1] && ([y] + b)[i] == b[i - 1];
  }

  lemma {:induction false} RoomItemsSameSlots(xs: seq<Surgery>, ys: seq<Surgery>, r: int)
    requires SameSlots(xs, ys)
    ensures SameSlots(RoomItems(xs, r), RoomItems(ys, r))
  {
    if xs != [] {
      var x, y := xs[0], ys[0];
      var a, b := RoomItems(xs[1..], r), RoomItems(ys[1..], r);
      assert SameSlots(xs[1..], ys[1..]) by {
        assert forall i :: 0 <= i < |xs| - 1 ==> xs[1..][i] == xs[i + 1] && ys[1..][i] == ys[i + 1];
        assert SameSlot(xs[0], ys[0]);
      }
      RoomItemsSameSlots(xs[1..], ys[1..], r);
      assert SameSlot(x, y) by { assert SameSlot(xs[0], ys[0]); }
      assert RoomItems(xs, r) == (if x.roomId == Some(r) then [x] else []) + a;
      assert RoomItems(ys, r) == (if y.roomId == Some(r) then [y] else []) + b;
      if x.roomId == Some(r) {
        ConsSameSlots(x, y, a, b);
      } else {
        assert [] + a == a && [] + b == b;
      }
    }
  }

  lemma RoomScheduleSameSlots(xs: seq<Surgery>, ys: seq<Surgery>, r: int)
    requires SameSlots(xs, ys)
    ensures SameSlots(RoomSchedule(xs, r), RoomSchedule(ys, r))
  {
    var a, b := RoomItems(xs, r), RoomItems(ys, r);
    RoomItemsSameSlots(xs, ys, r);
    assert Related(a, b, SameSlot, StartOf);
    SortRelated(a, b, SameSlot, StartOf);
  }

  lemma FlaggedInSameSlots(xs: seq<Surgery>, ys: seq<Surgery>)
    requires SameSlots(xs, ys)
    ensures FlaggedIn(xs) == FlaggedIn(ys)
  {
    forall id
      ensures id in FlaggedIn(xs) <==> id in FlaggedIn(ys)
    {
      FlaggedInMeans(xs, id);
      FlaggedInMeans(ys, id);
      assert forall k :: 0 <= k < |xs| - 1 ==> (OverlapsNext(xs, k) <==> OverlapsNext(ys, k));
    }
  }

  lemma AssignedRoomsSameSlots(xs: seq<Surgery>, ys: seq<Surgery>)
    requires SameSlots(xs, ys)
    ensures AssignedRooms(xs) == AssignedRooms(ys)
  {
    forall r | r in AssignedRooms(xs)
      ensures r in AssignedRooms(ys)
    {
      var s :| s in xs && HasRoom(s) && s.roomId.value == r;
      var i :| 0 <= i < |xs| && xs[i] == s;
      assert ys[i] in ys;
    }
    forall r | r in AssignedRooms(ys)
      ensures r in AssignedRooms(xs)
    {
      var s :| s in ys && HasRoom(s) && s.roomId.value == r;
      var i :| 0 <= i < |ys| && ys[i] == s;
      assert xs[i] in xs;
    }
  }

  /** Sequences that agree on ids, rooms and times get the same flagged set:
      no other field (the date in particular) is consulted. */
  lemma ConflictingIdsSameSlots(xs: seq<Surgery>, ys: seq<Surgery>)
    requires SameSlots(xs, ys)
    ensures ConflictingIds(xs) == ConflictingIds(ys)
  {
    AssignedRoomsSameSlots(xs, ys);
    forall r
      ensures FlaggedIn(RoomSchedule(xs, r)) == FlaggedIn(RoomSchedule(ys, r))
    {
      RoomScheduleSameSlots(xs, ys, r);
      FlaggedInSameSlots(RoomSchedule(xs, r), RoomSchedule(ys, r));
    }
    forall id
      ensures id in ConflictingIds(xs) <==> id in ConflictingIds(ys)
    {
      ConflictingIdsMeans(xs, id);
      ConflictingIdsMeans(ys, id);
    }
  }

  /** The flags never depend on the date, the patient, the drape or the old
      flags: cases that agree on id, room and times are flagged alike. */
  lemma FlagsIgnoreOtherFields(xs: seq<Surgery>, ys: seq<Surgery>)
    requires SameSlots(xs, ys)
    ensures forall i :: 0 <= i < |xs| ==>
      CheckConflicts(xs)[i].isConflicting == CheckConflicts(ys)[i].isConflicting
  {
    ConflictingIdsSameSlots(xs, ys);
  }

  /** Running the detector on its own output changes nothing. */
  lemma CheckConflictsIdempotent(items: seq<Surgery>)
    ensures CheckConflicts(CheckConflicts(items)) == CheckConflicts(items)
  {
    var once := CheckConflicts(items);
    ConflictingIdsSameSlots(once, items);
    var twice := CheckConflicts(once);
    assert forall i :: 0 <= i < |items| ==> twice[i] == once[i];
  }

  // ---------------------------------------------------------------------
  // Which cases get flagged
  // ---------------------------------------------------------------------

  /** With unique ids, only a case with a truthy room can carry a flagged id. */
  lemma FlaggedCaseHasRoom(items: seq<Surgery>, i: int)
    requires UniqueIds(items)
    requires 0 <= i < |items|
    ensures items[i].id in ConflictingIds(items) ==> HasRoom(items[i])
  {
    if items[i].id in ConflictingIds(items) {
      FlaggedIdHasAssignedCase(items, items[i].id);
      var s :| s in items && HasRoom(s) && s.id == items[i].id;
      var j :| 0 <= j < |items| && items[j] == s;
      assert j == i;
    }
  }

  /** With unique ids, a case without a truthy room is never flagged. */
  lemma UnassignedNeverFlagged(items: seq<Surgery>, i: int)
    requires UniqueIds(items)
    requires 0 <= i < |items| && !HasRoom(items[i])
    ensures !CheckConflicts(items)[i].isConflicting
  {
    FlaggedCaseHasRoom(items, i);
  }

  /** With unique ids, a case in room `r` is flagged exactly when, in the
      room's start-sorted order, it is one member of an adjacent pair whose
      first member ends after the second starts. */
  lemma FlagIffAdjacentOverlap(items: seq<Surgery>, i: int)
    requires UniqueIds(items)
    requires 0 <= i < |items| && HasRoom(items[i])
    ensures var xs := RoomSchedule(items, items[i].roomId.value);
      CheckConflicts(items)[i].isConflicting <==>
        exists k :: 0 <= k < |xs| - 1 && OverlapsNext(xs, k) && (xs[k] == items[i] || xs[k + 1] == items[i])
  {
    var s := items[i];
    var r := s.roomId.value;
    var xs := RoomSchedule(items, r);
    assert s in items;
    assert r in AssignedRooms(items);
    ConflictingIdsMeans(items, s.id);
    FlaggedInMeans(xs, s.id);
    if s.id in ConflictingIds(items) {
      var r' :| r' in AssignedRooms(items) && s.id in FlaggedIn(RoomSchedule(items, r'));
      var ys := RoomSchedule(items, r');
      FlaggedInMeans(ys, s.id);
      var k :| 0 <= k < |ys| - 1 && OverlapsNext(ys, k) && (ys[k].id == s.id || ys[k + 1].id == s.id);
      var z := if ys[k].id == s.id then ys[k] else ys[k + 1];
      assert z in ys;
      var j :| 0 <= j < |items| && items[j] == z;
      assert j == i;
      assert r' == r;
      assert xs[k] == items[i] || xs[k + 1] == items[i];
    }
  }

  /** Every pair the scan flags genuinely overlaps as half-open intervals
      when the later case has positive length. */
  lemma FlaggedPairOverlaps(xs: seq<Surgery>, k: int)
    requires SortedBy(xs, StartOf)
    requires 0 <= k < |xs| - 1 && OverlapsNext(xs, k)
    requires StartOf(xs[k + 1]) < EndOf(xs[k + 1])
    ensures StartOf(xs[k]) < EndOf(xs[k + 1]) && StartOf(xs[k + 1]) < EndOf(xs[k])
  {
    assert StartOf(xs[k]) <= StartOf(xs[k + 1]);
  }

  /** Two cases overlap as half-open intervals [start, end). */
  predicate Overlap(a: Surgery, b: Surgery) {
    StartOf(a) < EndOf(b) && StartOf(b) < EndOf(a)
  }

  /** In a start-sorted room with no adjacent overlap and no case ending
      before it starts, every case ends no later than any later case starts. */
  lemma {:induction false} ChainedSchedule(xs: seq<Surgery>, i: int, j: int)
    requires SortedBy(xs, StartOf)
    requires forall k :: 0 <= k < |xs| - 1 ==> !OverlapsNext(xs, k)
    requires forall k :: 0 <= k < |xs| ==> StartOf(xs[k]) <= EndOf(xs[k])
    requires 0 <= i < j < |xs|
    ensures EndOf(xs[i]) <= StartOf(xs[j])
    decreases j - i
  {
    assert !OverlapsNext(xs, i);
    if j > i + 1 {
      ChainedSchedule(xs, i + 1, j);
    }
  }

  /** A room in which no case is flagged has no overlapping adjacent pair
      in its start-sorted order. */
  lemma NoFlagsNoAdjacentOverlap(items: seq<Surgery>, r: int)
    requires r != 0
    requires forall s :: s in CheckConflicts(items) && s.roomId == Some(r) ==> !s.isConflicting
    ensures forall k :: 0 <= k < |RoomSchedule(items, r)| - 1 ==> !OverlapsNext(RoomSchedule(items, r), k)
  {
    var xs := RoomSchedule(items, r);
    var flagged := CheckConflicts(items);
    forall k | 0 <= k < |xs| - 1
      ensures !OverlapsNext(xs, k)
    {
      var x := xs[k];
      assert x in xs;
      var j :| 0 <= j < |items| && items[j] == x;
      assert r in AssignedRooms(items);
      FlaggedInMeans(xs, x.id);
      assert OverlapsNext(xs, k) ==> x.id in ConflictingIds(items);
      assert flagged[j] in flagged;
    }
  }

  /** In a start-sorted sequence with no adjacent overlap and no case ending
      before it starts, no two positions overlap. */
  lemma ChainedNoOverlap(xs: seq<Surgery>)
    requires SortedBy(xs, StartOf)
    requires forall k :: 0 <= k < |xs| - 1 ==> !OverlapsNext(xs, k)
    requires forall k :: 0 <= k < |xs| ==> StartOf(xs[k]) <= EndOf(xs[k])
    ensures forall i, j :: 0 <= i < |xs| && 0 <= j < |xs| && i != j ==> !Overlap(xs[i], xs[j])
  {
    forall i, j | 0 <= i < |xs| && 0 <= j < |xs| && i != j
      ensures !Overlap(xs[i], xs[j])
    {
      if i < j {
        ChainedSchedule(xs, i, j);
      } else {
        ChainedSchedule(xs, j, i);
      }
    }
  }

  /** A room in which no case is flagged, and in which no case ends before it
      starts, holds pairwise non-overlapping cases. */
  lemma NoFlagsMeansNoOverlap(items: seq<Surgery>, r: int)
    requires r != 0
    requires forall s :: s in CheckConflicts(items) && s.roomId == Some(r) ==> !s.isConflicting
    requires forall s :: s in items && s.roomId == Some(r) ==> StartOf(s) <= EndOf(s)
    ensures forall a, b :: a in items && b in items && a.roomId == Some(r) && b.roomId == Some(r) && a != b ==>
      !Overlap(a, b)
  {
    var xs := RoomSchedule(items, r);
    NoFlagsNoAdjacentOverlap(items, r);
    forall k | 0 <= k < |xs|
      ensures StartOf(xs[k]) <= EndOf(xs[k])
    {
      assert xs[k] in xs;
    }
    ChainedNoOverlap(xs);
    forall a, b | a in items && b in items && a.roomId == Some(r) && b.roomId == Some(r) && a != b
      ensures !Overlap(a, b)
    {
      assert a in xs && b in xs;
      var i :| 0 <= i < |xs| && xs[i] == a;
      var j :| 0 <= j < |xs| && xs[j] == b;
    }
  }

  /** The converse, with unique ids: when no two cases of a truthy room
      overlap and every such case has positive length, nothing is flagged,
      and a list that carries no flags comes back unchanged. */
  lemma NoOverlapMeansNoFlags(items: seq<Surgery>)
    requires UniqueIds(items)
    requires forall a :: a in items && HasRoom(a) ==> StartOf(a) < EndOf(a)
    requires forall a, b :: a in items && b in items && HasRoom(a) && a.roomId == b.roomId && a.id != b.id ==>
      !Overlap(a, b)
    ensures ConflictingIds(items) == {}
    ensures forall i :: 0 <= i < |items| ==> !CheckConflicts(items)[i].isConflicting
    ensures (forall i :: 0 <= i < |items| ==> !items[i].isConflicting) ==> CheckConflicts(items) == items
  {
    forall r | r in AssignedRooms(items)
      ensures FlaggedIn(RoomSchedule(items, r)) == {}
    {
      RoomQuiet(items, r);
    }
    forall id
      ensures id !in ConflictingIds(items)
    {
      ConflictingIdsMeans(items, id);
    }
  }

  lemma RoomQuiet(items: seq<Surgery>, r: int)
    requires UniqueIds(items) && r in AssignedRooms(items)
    requires forall a :: a in items && HasRoom(a) ==> StartOf(a) < EndOf(a)
    requires forall a, b :: a in items && b in items && HasRoom(a) && a.roomId == b.roomId && a.id != b.id ==>
      !Overlap(a, b)
    ensures FlaggedIn(RoomSchedule(items, r)) == {}
  {
    var xs := RoomSchedule(items, r);
    UniqueIdsFilter(items, InRoom(r));
    SortKeepsUnique(RoomItems(items, r));
    var w :| w in items && HasRoom(w) && w.roomId.value == r;
    forall k | 0 <= k < |xs| - 1
      ensures !OverlapsNext(xs, k)
    {
      var a, b := xs[k], xs[k + 1];
      assert a in xs && b in xs;
      assert a in items && b in items && a.roomId == Some(r) && b.roomId == Some(r);
      assert HasRoom(a) && HasRoom(b);
      assert a.id != b.id;
      assert !Overlap(a, b) && StartOf(b) < EndOf(b);
      assert StartOf(a) <= StartOf(b);
    }
    forall id
      ensures id !in FlaggedIn(xs)
    {
      FlaggedInMeans(xs, id);
    }
  }
}
