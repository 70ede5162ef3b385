/** Worked examples of `checkConflicts` that show what its adjacent-pair
    scan does and does not catch. Each is stated for every choice of the
    cases' other fields: only the ids, the shared room and the two times are
    fixed, and the dates are left free. */
module Scenarios {
  import opened Wrappers
  import opened Seqs
  import opened TimeText
  import opened StableSort
  import opened Surgeries
  import opened Conflicts

  /** Three cases in one room: A 08:00–12:00, B 08:30–09:00, C 09:30–10:00.
      In start order the adjacent pairs are (A, B), which overlaps, and
      (B, C), which does not, so A and B are flagged and C is not, even
      though A and C overlap. */
  lemma NestedCaseEscapes(a: Surgery, b: Surgery, c: Surgery, room: int)
    requires room != 0 && a.roomId == Some(room) && b.roomId == Some(room) && c.roomId == Some(room)
    requires a.id != b.id && b.id != c.id && a.id != c.id
    requires a.startTime == "08:00" && a.endTime == "12:00"
    requires b.startTime == "08:30" && b.endTime == "09:00"
    requires c.startTime == "09:30" && c.endTime == "10:00"
    ensures Overlap(a, b) && Overlap(a, c) && !Overlap(b, c)
    ensures CheckConflicts([a, b, c])[0].isConflicting
    ensures CheckConflicts([a, b, c])[1].isConflicting
    ensures !CheckConflicts([a, b, c])[2].isConflicting
  {
    assert StartOf(a) == 480 && EndOf(a) == 720 by { Reads0800(); Reads1200(); }
    assert StartOf(b) == 510 && EndOf(b) == 540 by { Reads0830(); Reads0900(); }
    assert StartOf(c) == 570 && EndOf(c) == 600 by { Reads0930(); Reads1000(); }
    NestedByMinutes(a, b, c, room);
  }

  /** The same three cases, given by the minutes their texts read as. */
  lemma NestedByMinutes(a: Surgery, b: Surgery, c: Surgery, room: int)
    requires room != 0 && a.roomId == Some(room) && b.roomId == Some(room) && c.roomId == Some(room)
    requires a.id != b.id && b.id != c.id && a.id != c.id
    requires StartOf(a) == 480 && EndOf(a) == 720
    requires StartOf(b) == 510 && EndOf(b) == 540
    requires StartOf(c) == 570 && EndOf(c) == 600
    ensures CheckConflicts([a, b, c])[0].isConflicting
    ensures CheckConflicts([a, b, c])[1].isConflicting
    ensures !CheckConflicts([a, b, c])[2].isConflicting
  {
    var items := [a, b, c];
    SortedRoomOfThree(items, room);
    assert OverlapsNext(items, 0) && !OverlapsNext(items, 1);
  }

  /** Two overlapping cases in one room are both flagged whatever their
      dates: the scan groups by room only. */
  lemma OtherDaysStillClash(a: Surgery, b: Surgery, room: int)
    requires room != 0 && a.roomId == Some(room) && b.roomId == Some(room)
    requires a.id != b.id && a.date != b.date
    requires a.startTime == "08:00" && a.endTime == "10:00"
    requires b.startTime == "09:00" && b.endTime == "12:00"
    ensures CheckConflicts([a, b])[0].isConflicting && CheckConflicts([a, b])[1].isConflicting
  {
    assert StartOf(a) == 480 && EndOf(a) == 600 by { Reads0800(); Reads1000(); }
    assert StartOf(b) == 540 && EndOf(b) == 720 by { Reads0900(); Reads1200(); }
    OverlapByMinutes(a, b, room);
  }

  /** The same two cases, given by the minutes their texts read as. */
  lemma OverlapByMinutes(a: Surgery, b: Surgery, room: int)
    requires room != 0 && a.roomId == Some(room) && b.roomId == Some(room)
    requires a.id != b.id
    requires StartOf(a) == 480 && EndOf(a) == 600
    requires StartOf(b) == 540 && EndOf(b) == 720
    ensures CheckConflicts([a, b])[0].isConflicting && CheckConflicts([a, b])[1].isConflicting
  {
    var items := [a, b];
    SortedRoomOfTwo(items, room);
    assert OverlapsNext(items, 0);
  }

  /** A sorted room of three: the middle case is flagged when either pair
      overlaps, each end case only through its own pair. */
  lemma SortedRoomOfThree(items: seq<Surgery>, room: int)
    requires room != 0 && |items| == 3
    requires items[0].roomId == Some(room) && items[1].roomId == Some(room) && items[2].roomId == Some(room)
    requires items[0].id != items[1].id && items[1].id != items[2].id && items[0].id != items[2].id
    requires StartOf(items[0]) <= StartOf(items[1]) <= StartOf(items[2])
    ensures CheckConflicts(items)[0].isConflicting <==> OverlapsNext(items, 0)
    ensures CheckConflicts(items)[1].isConflicting <==> OverlapsNext(items, 0) || OverlapsNext(items, 1)
    ensures CheckConflicts(items)[2].isConflicting <==> OverlapsNext(items, 1)
  {
    assert items == [items[0], items[1], items[2]];
    SortedThree(items[0], items[1], items[2], StartOf);
    UniqueThree(items[0], items[1], items[2]);
    SortedRoomFlags(items, room, 0);
    SortedRoomFlags(items, room, 1);
    SortedRoomFlags(items, room, 2);
  }

  /** A sorted room of two: both cases are flagged exactly when they
      overlap. */
  lemma SortedRoomOfTwo(items: seq<Surgery>, room: int)
    requires room != 0 && |items| == 2
    requires items[0].roomId == Some(room) && items[1].roomId == Some(room)
    requires items[0].id != items[1].id
    requires StartOf(items[0]) <= StartOf(items[1])
    ensures CheckConflicts(items)[0].isConflicting <==> OverlapsNext(items, 0)
    ensures CheckConflicts(items)[1].isConflicting <==> OverlapsNext(items, 0)
  {
    assert items == [items[0], items[1]];
    SortedTwo(items[0], items[1], StartOf);
    UniqueTwo(items[0], items[1]);
    SortedRoomFlags(items, room, 0);
    SortedRoomFlags(items, room, 1);
  }

  /** In a list of one room's cases that is already in start order, a case
      is flagged exactly when it overlaps its predecessor or its successor
      in the list. */
  lemma SortedRoomFlags(items: seq<Surgery>, room: int, i: int)
    requires room != 0 && forall k :: 0 <= k < |items| ==> items[k].roomId == Some(room)
    requires SortedBy(items, StartOf) && UniqueIds(items)
    requires 0 <= i < |items|
    ensures CheckConflicts(items)[i].isConflicting <==>
      (0 < i && OverlapsNext(items, i - 1)) || (i < |items| - 1 && OverlapsNext(items, i))
  {
    assert items[i] in items;
    var xs := RoomSchedule(items, items[i].roomId.value);
    assert xs == items by {
      OneRoomSchedule(items, room);
    }
    FlagIffAdjacentOverlap(items, i);
    var flagged := CheckConflicts(items)[i].isConflicting;
    if flagged {
      var k :| 0 <= k < |xs| - 1 && OverlapsNext(xs, k) && (xs[k] == items[i] || xs[k + 1] == items[i]);
      if xs[k] == items[i] {
        assert items[k].id == items[i].id;
        assert k == i;
      } else {
        assert items[k + 1].id == items[i].id;
        assert k + 1 == i;
      }
    }
    if 0 < i && OverlapsNext(items, i - 1) {
      assert xs[i - 1 + 1] == items[i];
    }
    if i < |items| - 1 && OverlapsNext(items, i) {
      assert xs[i] == items[i];
    }
  }

  /** When every case sits in room `room` and the list is already in start
      order, the room's schedule is the list itself. */
  lemma OneRoomSchedule(items: seq<Surgery>, room: int)
    requires forall k :: 0 <= k < |items| ==> items[k].roomId == Some(room)
    requires SortedBy(items, StartOf)
    ensures RoomSchedule(items, room) == items
  {
    assert forall k :: 0 <= k < |items| ==> InRoom(room)(items[k]);
    FilterAll(items, InRoom(room));
    SortKeepsSorted(items, StartOf);
  }

  lemma UniqueTwo(a: Surgery, b: Surgery)
    requires a.id != b.id
    ensures UniqueIds([a, b])
  {
  }

  lemma UniqueThree(a: Surgery, b: Surgery, c: Surgery)
    requires a.id != b.id && b.id != c.id && a.id != c.id
    ensures UniqueIds([a, b, c])
  {
  }

}
