/** The board's list of cases and the operations that change it: a board
    edit (`handleSurgeryUpdate`), saving the edit form (`handleSaveSurgery`,
    guarded by the form's `handleSave` check), deleting (`handleDeleteSurgery`),
    finishing a gesture on the Gantt board, and dropping an unassigned case
    onto the grid (`handleDrop` and `handleSurgeryDrop`). Every change that
    reaches the list is followed by conflict detection. */
module Store {
  import opened Wrappers
  import opened Seqs
  import opened TimeText
  import opened Catalog
  import opened Surgeries
  import opened Conflicts
  import opened Placement

  /** The cases with, and the cases without, a given id. */
  function HasId(id: int): Surgery -> bool {
    (s: Surgery) => s.id == id
  }

  function LacksId(id: int): Surgery -> bool {
    (s: Surgery) => s.id != id
  }

  /** Every case carries the flag conflict detection would give it: the
      state of the list after any operation below. */
  predicate FlagsCurrent(items: seq<Surgery>) {
    CheckConflicts(items) == items
  }

  /** Conflict detection leaves a list whose flags are current. */
  lemma CheckedFlagsCurrent(items: seq<Surgery>)
    ensures FlagsCurrent(CheckConflicts(items))
  {
    CheckConflictsIdempotent(items);
  }

  /** Conflict detection keeps the ids, so it keeps them unique. */
  lemma CheckedIdsUnique(items: seq<Surgery>)
    ensures Ids(CheckConflicts(items)) == Ids(items)
    ensures UniqueIds(CheckConflicts(items)) <==> UniqueIds(items)
  {
    var r := CheckConflicts(items);
    assert forall i :: 0 <= i < |r| ==> r[i].id == items[i].id;
  }

  // ---------------------------------------------------------------------
  // Lookup and replacement
  // ---------------------------------------------------------------------

  /** `surgeries.find(s => s.id === id)`: the first case with the id. */
  function Find(items: seq<Surgery>, id: int): (r: Option<Surgery>)
    ensures r.None? <==> id !in Ids(items)
    ensures r.Some? ==> r.value in items && r.value.id == id
  {
    if items == [] then None
    else if items[0].id == id then Some(items[0])
    else
      assert forall i :: 1 <= i < |items| ==> items[i] == items[1..][i - 1];
      Find(items[1..], id)
  }

  /** `find` returns the FIRST case carrying the id. */
  lemma {:induction false} FindFirst(items: seq<Surgery>, id: int, i: int)
    requires 0 <= i < |items| && items[i].id == id
    requires forall j :: 0 <= j < i ==> items[j].id != id
    ensures Find(items, id) == Some(items[i])
  {
    if i > 0 {
      FindFirst(items[1..], id, i - 1);
    }
  }

  /** `prev.map(s => s.id === u.id ? u : s)`: every case with `u`'s id is
      replaced by `u`; the others, and the order, are kept. */
  function ReplaceById(items: seq<Surgery>, u: Surgery): (r: seq<Surgery>)
    ensures |r| == |items|
    ensures forall i :: 0 <= i < |r| ==> r[i].id == items[i].id
    ensures forall i :: 0 <= i < |r| && items[i].id == u.id ==> r[i] == u
    ensures forall i :: 0 <= i < |r| && items[i].id != u.id ==> r[i] == items[i]
  {
    seq(|items|, i requires 0 <= i < |items| => if items[i].id == u.id then u else items[i])
  }

  /** Replacing the case by itself changes nothing when ids are unique. */
  lemma ReplaceBySelf(items: seq<Surgery>, i: int)
    requires UniqueIds(items) && 0 <= i < |items|
    ensures ReplaceById(items, items[i]) == items
  {
  }

  // ---------------------------------------------------------------------
  // The operations
  // ---------------------------------------------------------------------

  /** `handleSurgeryUpdate`: replace by id, then recompute the flags. The
      ids, the order and every unedited case stay; only flags move. */
  function Update(items: seq<Surgery>, u: Surgery): (r: seq<Surgery>)
    ensures |r| == |items|
    ensures forall i :: 0 <= i < |r| && items[i].id == u.id ==> SameExceptFlag(r[i], u)
    ensures forall i :: 0 <= i < |r| && items[i].id != u.id ==> SameExceptFlag(r[i], items[i])
    ensures Ids(r) == Ids(items)
    ensures UniqueIds(r) <==> UniqueIds(items)
    ensures FlagsCurrent(r)
  {
    var replaced := ReplaceById(items, u);
    CheckedFlagsCurrent(replaced);
    CheckedIdsUnique(replaced);
    assert forall i, j :: 0 <= i < |items| && 0 <= j < |items| ==>
      (replaced[i].id == replaced[j].id <==> items[i].id == items[j].id);
    CheckConflicts(replaced)
  }

  /** `handleDeleteSurgery`: drop every case with the id, then recompute
      the flags. The survivors keep their order. */
  function Delete(items: seq<Surgery>, id: int): (r: seq<Surgery>)
    ensures |r| == |Filter(items, LacksId(id))| == |items| - Count(items, HasId(id))
    ensures forall i :: 0 <= i < |r| ==> SameExceptFlag(r[i], Filter(items, LacksId(id))[i])
    ensures Ids(r) == Ids(items) - {id}
    ensures UniqueIds(items) ==> UniqueIds(r)
    ensures FlagsCurrent(r)
  {
    var kept := Filter(items, LacksId(id));
    CheckedFlagsCurrent(kept);
    CheckedIdsUnique(kept);
    UniqueIdsFilter(items, LacksId(id));
    CountSplits(items, id);
    IdsOfKept(items, id);
    CheckConflicts(kept)
  }

  lemma {:induction false} CountSplits(items: seq<Surgery>, id: int)
    ensures |Filter(items, LacksId(id))| == |items| - Count(items, HasId(id))
  {
    if items != [] {
      CountSplits(items[1..], id);
    }
  }

  lemma IdsOfKept(items: seq<Surgery>, id: int)
    ensures Ids(Filter(items, LacksId(id))) == Ids(items) - {id}
  {
    var kept := Filter(items, LacksId(id));
    forall x | x in Ids(items) - {id}
      ensures x in Ids(kept)
    {
      var i :| 0 <= i < |items| && items[i].id == x;
      assert items[i] in kept;
      var j :| 0 <= j < |kept| && kept[j] == items[i];
    }
    forall x | x in Ids(kept)
      ensures x in Ids(items) - {id}
    {
      var j :| 0 <= j < |kept| && kept[j].id == x;
      assert kept[j] in items;
      var i :| 0 <= i < |items| && items[i] == kept[j];
    }
  }

  /** The edit form's required fields (`handleSave`): patient name and
      procedure must both be non-empty. */
  predicate FormComplete(form: Surgery) {
    form.patientName != "" && form.procedure != ""
  }

  /** `handleSaveSurgery`: a form with a truthy id edits that case; any
      other form becomes a new case, appended with `freshId` (the source
      takes `Date.now()`). Either way the flags are recomputed. */
  function Save(items: seq<Surgery>, form: Surgery, freshId: int): (r: seq<Surgery>)
    ensures form.id != 0 ==> r == Update(items, form)
    ensures form.id == 0 ==> (|r| == |items| + 1
      && SameExceptFlag(r[|items|], form.(id := freshId))
      && forall i :: 0 <= i < |items| ==> SameExceptFlag(r[i], items[i]))
    ensures form.id == 0 ==> Ids(r) == Ids(items) + {freshId}
    ensures form.id == 0 ==> (UniqueIds(r) <==> UniqueIds(items) && freshId !in Ids(items))
    ensures FlagsCurrent(r)
  {
    if form.id != 0 then Update(items, form)
    else
      var added := items + [form.(id := freshId)];
      CheckedFlagsCurrent(added);
      CheckedIdsUnique(added);
      UniqueIdsSnoc(items, form.(id := freshId));
      assert Ids(added) == Ids(items) + {freshId} by {
        assert forall i :: 0 <= i < |items| ==> added[i] == items[i];
        assert added[|items|].id == freshId;
      }
      CheckConflicts(added)
  }

  /** The form's save button: an incomplete form is refused with a message
      and nothing changes; a complete one is saved. */
  function Submit(items: seq<Surgery>, form: Surgery, freshId: int): (r: Option<seq<Surgery>>)
    ensures r.None? <==> !FormComplete(form)
    ensures r.Some? ==> r.value == Save(items, form, freshId)
  {
    if form.patientName == "" || form.procedure == "" then None else Some(Save(items, form, freshId))
  }

  // ---------------------------------------------------------------------
  // Gantt gestures and drops
  // ---------------------------------------------------------------------

  /** The end of a gesture on a block: the released case goes through
      `handleSurgeryUpdate`, so it replaces every case with its id. */
  function EndGesture(items: seq<Surgery>, s: Surgery, g: Gesture, dx: real, y: real, scale: TimeScale): (r: seq<Surgery>)
    ensures |r| == |items| && Ids(r) == Ids(items) && FlagsCurrent(r)
    ensures forall i :: 0 <= i < |r| && items[i].id == s.id ==> SameExceptFlag(r[i], Release(s, g, dx, y, scale))
    ensures forall i :: 0 <= i < |r| && items[i].id != s.id ==> SameExceptFlag(r[i], items[i])
  {
    Update(items, Release(s, g, dx, y, scale))
  }

  /** A move released outside the catalog rows hands back the case it
      started from, so a list whose flags are current stays exactly as it
      was. */
  lemma MoveOutsideRowsChangesNothing(items: seq<Surgery>, i: int, dx: real, y: real, scale: TimeScale)
    requires UniqueIds(items) && FlagsCurrent(items) && 0 <= i < |items|
    requires RoomAtRow(RowAt(y)).None?
    ensures EndGesture(items, items[i], Move, dx, y, scale) == items
  {
    ReplaceBySelf(items, i);
  }

  /** `handleSurgeryDragStart`'s payload: the id as text. */
  function DragPayload(s: Surgery): (payload: string)
    ensures payload != "" && TextToNumber(payload) == s.id
  {
    NumberOfText(s.id);
    IntToText(s.id)
  }

  /** The length given to a dropped case: its own duration when positive,
      otherwise an hour. */
  function DropLength(s: Surgery): (n: int)
    ensures n > 0
    ensures EndOf(s) > StartOf(s) ==> n == EndOf(s) - StartOf(s)
    ensures EndOf(s) <= StartOf(s) ==> n == 60
  {
    var duration := EndOf(s) - StartOf(s);
    if duration > 0 then duration else 60
  }

  /** A case placed in `room` at `startText` for its drop length. */
  function Dropped(s: Surgery, room: int, startText: string): (d: Surgery)
    ensures d.id == s.id && d.roomId == Some(room) && d.startTime == startText
    ensures SameExceptPlacement(d, s)
    ensures TimeToMinutes(startText) >= 0 ==> EndOf(d) - StartOf(d) == DropLength(s)
  {
    ShiftReadsBack(TimeToMinutes(startText), DropLength(s));
    s.(roomId := Some(room), startTime := startText,
       endTime := MinutesToTime(EndMinute(TimeToMinutes(startText), DropLength(s))))
  }

  /** `handleSurgeryDrop`: the first case with the id is placed in the room
      at the given start for its drop length and goes through
      `handleSurgeryUpdate`; an unknown id changes nothing at all. */
  function SurgeryDrop(items: seq<Surgery>, id: int, room: int, startText: string): (r: seq<Surgery>)
    ensures id !in Ids(items) ==> r == items
    ensures id in Ids(items) ==> r == Update(items, Dropped(Find(items, id).value, room, startText))
  {
    match Find(items, id)
    case None => items
    case Some(s) => Update(items, Dropped(s, room, startText))
  }

  /** `handleDrop`: an empty payload, or a drop off the catalog rows,
      changes nothing; otherwise the case named by the payload is dropped
      at the target. */
  function DropOnGrid(items: seq<Surgery>, payload: string, x: real, y: real, scale: TimeScale): (r: seq<Surgery>)
    ensures payload == "" || RoomAtRow(RowAt(y)).None? ==> r == items
    ensures payload != "" && RoomAtRow(RowAt(y)).Some? ==>
      r == SurgeryDrop(items, TextToNumber(payload), DropTarget(x, y, scale).value.0, DropTarget(x, y, scale).value.1)
  {
    if payload == "" then items
    else
      match DropTarget(x, y, scale)
      case None => items
      case Some(target) => SurgeryDrop(items, TextToNumber(payload), target.0, target.1)
  }

  /** Dragging case `i` from the unassigned list and dropping it over a
      catalog row puts it, and only it, in that row's room, starting at the
      pointer's minute rounded to a 5-minute mark and moved up to the window
      start when it falls before it, for its drop length. */
  lemma DropPlacesCase(items: seq<Surgery>, i: int, x: real, y: real, scale: TimeScale)
    requires UniqueIds(items) && 0 <= i < |items|
    requires RoomAtRow(RowAt(y)).Some?
    ensures var r := DropOnGrid(items, DragPayload(items[i]), x, y, scale);
      && |r| == |items|
      && r[i].id == items[i].id
      && r[i].roomId == RoomAtRow(RowAt(y))
      && StartOf(r[i]) >= ConfigFor(scale).Offset() && StartOf(r[i]) % 5 == 0
      && ((StartOf(r[i]) == ConfigFor(scale).Offset() && PointerMinute(x, scale) <= StartOf(r[i]) as real + 2.5)
          || (PointerMinute(x, scale) - 2.5 < StartOf(r[i]) as real <= PointerMinute(x, scale) + 2.5))
      && EndOf(r[i]) - StartOf(r[i]) == DropLength(items[i])
      && forall j :: 0 <= j < |items| && j != i ==> SameExceptFlag(r[j], items[j])
  {
    var s := items[i];
    assert s.id in Ids(items);
    FindFirst(items, s.id, i);
    var target := DropTarget(x, y, scale).value;
    var d := Dropped(s, target.0, target.1);
    var r := DropOnGrid(items, DragPayload(s), x, y, scale);
    assert r == Update(items, d);
    assert SameExceptFlag(r[i], d);
    assert SameSlot(r[i], d);
  }
}
