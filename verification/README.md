# Operating-room scheduling board — a Dafny model

This project models the scheduling core of a single-page operating-room board.
Each surgical case has a patient, a department, a date, "HH:mm" start and end
texts, an optional room, a drape tag and a conflict flag. The core covers:

- **Clock text.** The `timeToMinutes`, `minutesToTime` and `roundToNearest5`
  utilities, written over exact integers. JavaScript's truncating `%`,
  `Math.floor` and `String`/`padStart`/`split`/`Number` are spelled out.
- **Configuration.** The static room catalog (rooms 1..10), the department
  catalog, the drape types, the Gantt geometry constants and the
  nine-case seed list.
- **Conflict detection (`checkConflicts`).** Cases are grouped by truthy room
  and each group is stably sorted by start. Only ADJACENT pairs are compared,
  and both members of a pair are flagged when the first ends after the second
  starts. The date is never read, and only the flags change.
- **The Gantt board.**
  - The window and scale of each zoom level.
  - Which cases a row draws.
  - Moving a block: the indicator preview, and the commit on release.
  - Stretching either edge with its 15-minute clamp.
  - Dropping an unassigned case onto a row, with the one-hour fallback length.
- **The store operations.** Update, save (edit or create), delete, and the
  form's required-field check. Each is followed by conflict detection.
- **The read-only views.** The day filter, the unassigned sidebar, the list
  views grouped by department or by room, and the drape tally per room.

Modules: `TimeText`, `Catalog`, `Surgeries` (the case record), `Seqs` and
`StableSort` (order-preserving filter and the stable sort), `Conflicts`,
`Placement` (geometry and gestures), `Store`, `Projections`, `Drapes`, `Seed`
and `Scenarios` (worked conflict examples).

Pixel arithmetic uses exact reals. `Math.round(v)` is `floor(v + 0.5)`.
`Array.prototype.sort` with a start-time comparator is modelled as a stable
insertion sort. A stable sort by a key has only one possible output, so this
is the same result as the engine's sort.

`Date.now()`, used as the id of a newly created case, is the parameter
`freshId` of `Store.Save`. The current date is the parameter `today` of
`Seed.InitialSurgeries` and the parameter `day` of the day filter.

The adjacent-pair scan does not flag every pairwise overlap. Take A
08:00-12:00, B 08:30-09:00 and C 09:30-10:00 in one room: C overlaps A but
is not flagged, because its only neighbour in start order is B
(`Scenarios.NestedCaseEscapes`).

## Model

| member | source | states |
|---|---|---|
| TimeText.RoundToNearest5 | App.tsx:19-21 | the result is a multiple of 5 lying in (x - 2.5, x + 2.5], i.e. the nearest multiple with halves rounding up |
| TimeText.RoundToNearest5Unique | App.tsx:19-21 | any multiple of 5 in that window is the rounding result, so the window characterises the function completely |
| TimeText.RoundToNearest5Idempotent | App.tsx:19-21 | rounding an already rounded value changes nothing |
| TimeText.RoundToNearest5AtLeast | App.tsx:19-21 | a value at or above a multiple of 5 never rounds below it (why a clamped start stays inside the window) |
| TimeText.JsRound | App.tsx:20 | `Math.round` lands within half a unit of its argument, halves going up |
| TimeText.JsRem60 | App.tsx:15 | JavaScript's `% 60`: the Euclidean remainder for non-negative inputs, minus the remainder of the magnitude for negative ones |
| TimeText.PadStart2 | App.tsx:16 | `padStart(2, '0')`: length max(2, n), the original text as suffix, zeros in front |
| TimeText.SplitAtFirst | App.tsx:8 | for a text `a:b` with no colon in `a`, the first `split(':')` field is `a` and the rest after it is `b` |
| TimeText.NumberOfPadded | App.tsx:12-17 | every hour or minute field that `minutesToTime` writes has no colon and reads back through `Number` as the same integer |
| TimeText.NumberOfText | App.tsx:309 | `Number(String(n)) == n` for every integer id |
| TimeText.ParsedMinutes | App.tsx:6-17 | reading back the text of `m` gives floor(m/60)*60 plus the truncated remainder |
| TimeText.MinutesRoundTrip | App.tsx:6-17 | `timeToMinutes(minutesToTime(m)) == m` for every non-negative m |
| TimeText.ShiftReadsBack | App.tsx:205-209 | two texts written from counts `dur` apart, both non-negative, read back exactly `dur` apart, whether `dur` is positive, zero or negative |
| TimeText.NegativeMinutesReadBackEarlier | App.tsx:12-17 | a negative count reads back as itself on whole hours and 60 minutes earlier otherwise |
| TimeText.ParsedNoLater | App.tsx:6-17 | for every integer m, the text of m never reads back later than m |
| TimeText.NegativeTextExample | App.tsx:12-17 | -80 minutes is written "-2:-20" and that text reads back as -140 |
| TimeText.NineFortyFiveText | App.tsx:12-17 | 585 minutes is written "09:45" |
| TimeText.ClockTextMinutes | App.tsx:6-10 | a zero-padded clock text reads as hours*60 + minutes, within 0..1439 |
| TimeText.ClockRoundTrip | App.tsx:6-17 | `minutesToTime(timeToMinutes(t)) == t` for every clock text t |
| TimeText.DayMinuteIsClockText | App.tsx:12-17 | every minute of the day 0..1439 is written as a well-formed clock text |
| Catalog.RoomAtRow | App.tsx:242-243 | rows 0..9 hold rooms row+1; any other row has no room |
| Catalog.RoomIndex | App.tsx:501-511 | a room id has a tally record exactly when it is 1..10, stored at position id-1 |
| Catalog.RoomCatalogShape | constants.ts:11-22 | ten rooms with ids exactly 1..10 in order, none of them 0 (so every catalog room is truthy) |
| Catalog.GanttGeometry | constants.ts:40-44 | the full window is 07:00-19:00 (420..1140 minutes), twelve hours, ten 80-pixel rows |
| Catalog.DepartmentCatalogCovers | constants.ts:3-9 | every department id is listed, and no id twice |
| Placement.ConfigFor | App.tsx:148-158 | each zoom level's window lies inside 07-19 with an offset on a 5-minute mark; the halves are six hours at twice the scale, and every level has the same total width |
| Placement.HalvesTileTheDay | App.tsx:148-154 | the morning window starts with the day, ends where the afternoon starts (13:00), and the afternoon ends with the day |
| Placement.ScaleConversions | App.tsx:188-189 | the pixel/minute conversions multiply and divide by the level's pixels per minute |
| Placement.PixelShift | App.tsx:192-203 | converting a start to pixels, shifting by the pointer and converting back equals shifting the start by the pointer in minutes |
| Placement.RowAtBand | App.tsx:242 | row k is the band of heights [80k, 80(k+1)) |
| Placement.DragStartMinutes | App.tsx:246-249 | a released move starts on a 5-minute mark, never before the window, within 2.5 minutes of the dragged start clamped to the window |
| Placement.GhostStartMinutes | App.tsx:192-204 | the previewed start is on a 5-minute mark, never before the window |
| Placement.MovedTimes | App.tsx:205-209 | the written start reads back as the new start, and the written end reads back the old duration later (negative durations included) whenever the new end minute is not negative |
| Placement.DragCommit | App.tsx:240-252 | a move released off the catalog rows returns the case unchanged; over row k it sets room k+1 and the rounded start, keeps the duration whenever the new end minute is not negative, and changes nothing but room and times |
| Placement.GhostMatchesDrag | App.tsx:192-204 | the preview's start, computed from the ghost's pixel position, equals the release's start, computed in minutes |
| Placement.PreviewMatchesCommit | App.tsx:191-252 | over a catalog row, the indicator text during a move is exactly what the release commits |
| Placement.ResizeLeftStart | App.tsx:257-260 | the new start is the smaller of the rounded dragged start and the end minus 15 |
| Placement.ResizeRightEnd | App.tsx:261-264 | the new end is the larger of the rounded dragged end and the start plus 15 |
| Placement.ResizePreview | App.tsx:211-222 | the indicator keeps the edge that is not dragged, and the dragged edge's text reads back as the clamped minute when that is not negative |
| Placement.ResizeCommit | App.tsx:253-265 | only the dragged edge's text changes (room and every other field stay), and the result is what the indicator showed, so the dragged edge reads back as the clamped minute when that is not negative |
| Placement.ResizeLeftKeepsQuarterHour | App.tsx:257-260 | after a left-edge drag the case lasts at least 15 minutes, for every pointer position |
| Placement.ResizeRightKeepsQuarterHour | App.tsx:261-264 | after a right-edge drag the case lasts at least 15 minutes when its start is not before -15 |
| Placement.ResizeLeftClampExample | App.tsx:257-260 | a 09:00-10:00 case whose left edge is pushed 600 px right becomes 09:45-10:00 |
| Placement.Release | App.tsx:230-270 | the released case keeps its id and non-placement fields; an edge drag keeps the room; a commit equals the preview except a move off the rows, which returns the case |
| Placement.DropTarget | App.tsx:297-310 | a drop has a target exactly over a catalog row; the target is that row's room and a start text that reads back on a 5-minute mark, not before the window start: the pointer's minute rounded to 5, or the window start when that rounding falls before it; nothing bounds it on the right |
| StableSort.SortSorted | App.tsx:735 | the sort's output is ordered by start minute |
| StableSort.SortStable | App.tsx:388 | cases with equal start keep their relative order |
| StableSort.SortKeepsSorted | App.tsx:735 | an already ordered list is returned as is |
| StableSort.SortRelated | App.tsx:735 | pointwise related inputs with equal keys sort into pointwise related outputs (the sort looks only at the key) |
| Surgeries.SortByStart | App.tsx:735 | the room's sorted cases are a permutation of its cases, ordered by start |
| Conflicts.RoomItems | App.tsx:725-730 | `surgeriesByRoom[r]` holds exactly the cases whose room is r |
| Conflicts.RoomSchedule | App.tsx:735 | the sorted room is a permutation of the room's cases (each as often as in the list), ordered by start |
| Conflicts.AssignedRooms | App.tsx:726-734 | the rooms scanned are exactly the truthy room ids in use |
| Conflicts.CheckConflicts | App.tsx:722-747 | same length and order; every case equal to its input but for the flag, which is set iff its id was flagged in some room |
| Conflicts.ScanAdjacent | App.tsx:736-743 | the loop over one sorted room collects exactly the ids of both members of every overlapping adjacent pair |
| Conflicts.FlagsIgnoreOtherFields | App.tsx:722-747 | lists that agree on ids, rooms and times get the same flags: date, patient, drape and old flags are never read |
| Conflicts.CheckConflictsIdempotent | App.tsx:722-747 | running detection on its own output changes nothing |
| Conflicts.FlaggedCaseHasRoom | App.tsx:725-730 | with unique ids only a case with a truthy room can carry a flagged id |
| Conflicts.UnassignedNeverFlagged | App.tsx:725-730 | with unique ids a case with no room (or room 0) is never flagged |
| Conflicts.FlagIffAdjacentOverlap | App.tsx:734-746 | with unique ids a case is flagged iff, in its room's start order, it is a member of an adjacent pair whose first ends after the second starts |
| Conflicts.FlaggedPairOverlaps | App.tsx:736-742 | a flagged pair overlaps as half-open intervals when the later case has positive length |
| Conflicts.NoFlagsMeansNoOverlap | App.tsx:734-746 | in a room with no flag and no reversed case, no two cases overlap |
| Conflicts.NoOverlapMeansNoFlags | App.tsx:734-746 | with unique ids, positive lengths and no overlap in any room nothing is flagged, and an unflagged list comes back unchanged |
| Store.CheckedFlagsCurrent | App.tsx:749-751 | after detection every flag is the one detection would give |
| Store.CheckedIdsUnique | App.tsx:746 | detection keeps the id set, hence keeps ids unique |
| Store.Find | App.tsx:792 | `find` fails iff no case has the id, else returns a member with that id |
| Store.FindFirst | App.tsx:792 | `find` returns the first case carrying the id |
| Store.ReplaceById | App.tsx:755 | every case with the edited id becomes the edit; the others and the order stay |
| Store.Update | App.tsx:754-756 | same length and ids; cases with the id equal the edit and others are unchanged, up to flags; flags are current |
| Store.Delete | App.tsx:782-785 | the survivors are the cases without the id, in order, up to flags; the id set loses exactly the id; unique ids stay unique; flags are current |
| Store.Save | App.tsx:768-780 | a truthy id is an update; otherwise the form is appended with the fresh id, the id set gains it, ids stay unique iff it is new, and flags are current |
| Store.Submit | App.tsx:606-612 | a form missing patient name or procedure is refused and changes nothing; otherwise it is saved |
| Store.EndGesture | App.tsx:268 | a finished gesture replaces the cases with the gesture's id by the released case and leaves the rest, up to flags |
| Store.MoveOutsideRowsChangesNothing | App.tsx:240-252 | a move released off the catalog rows leaves a current list exactly as it was |
| Store.DragPayload | App.tsx:787-789 | the drag payload is non-empty and reads back as the case's id |
| Store.DropLength | App.tsx:794-795 | a dropped case keeps its duration when positive and otherwise lasts 60 minutes |
| Store.Dropped | App.tsx:797-802 | the dropped case gets the room and start text, keeps every other field, and (for a non-negative start) lasts its drop length |
| Store.SurgeryDrop | App.tsx:791-805 | an unknown id changes nothing; otherwise the first case with the id is placed and goes through the update |
| Store.DropOnGrid | App.tsx:290-311 | an empty payload or a drop off the rows changes nothing; otherwise the named case is dropped at the target |
| Store.DropPlacesCase | App.tsx:299-309 | dropping case i over a row puts it in that row's room at the pointer's minute rounded to a 5-minute mark (the window start when that falls before it) for its drop length; all other cases unchanged up to flags |
| Projections.Visible | App.tsx:160-165 | the board draws exactly the cases with a truthy room that end after the window opens and start before it closes |
| Projections.RowBlocks | App.tsx:352-354 | a catalog row draws exactly the visible cases of its room; other rows draw nothing |
| Projections.HalfDayShownAllDay | App.tsx:148-165 | whatever a half-day board draws, the full-day board draws |
| Projections.FullDayIsBothHalves | App.tsx:148-165 | for a case of positive length, the full-day board draws it iff one of the halves does |
| Projections.ZeroLengthAtNoonMissesBothHalves | App.tsx:160-165 | a 13:00-13:00 case is drawn on the full-day board and on neither half |
| Projections.DayCases | App.tsx:807-809 | the day's cases are exactly the cases with that date, a sub-multiset of the list |
| Projections.Unassigned | App.tsx:811-813 | the sidebar holds exactly the day's cases whose room is null |
| Projections.BoardPlacement | App.tsx:807-813 | a day case without room is in the sidebar and no row; one with a room is not in the sidebar and is in row k iff it is visible and its room is k+1 |
| Projections.OffCatalogRoomShownNowhere | App.tsx:160-165 | a case whose room is outside 1..10 appears in no row and not in the sidebar; with room 0 it is not even visible |
| Projections.Grouped | App.tsx:381-390 | one group per key, each sorted by start, each a permutation of the cases with that key |
| Projections.GroupedStable | App.tsx:388 | within a group, cases with equal start keep their list order |
| Projections.GroupsPartition | App.tsx:381-390 | with distinct keys the groups together hold each keyed case exactly as often as the list does |
| Projections.ByDepartment | App.tsx:373-390 | one sorted group per catalog department holding exactly its cases |
| Projections.ByRoom | App.tsx:373-390 | one sorted group per catalog room holding exactly its cases |
| Projections.DepartmentViewShowsEveryCase | App.tsx:381-390 | the department view holds every case exactly once per occurrence |
| Projections.RoomViewShowsCatalogCases | App.tsx:381-390 | the room view holds exactly the cases whose room is 1..10, each once per occurrence |
| Drapes.EmptyTally | App.tsx:501-507 | the starting records are the tally of no cases |
| Drapes.AddOther | App.tsx:513-516 | an "other" text is appended to one room's list and counted once in the total |
| Drapes.AddListed | App.tsx:518-519 | a listed drape adds one to one room's count of that type and to that type's total, nothing else |
| Drapes.AddCaseStep | App.tsx:509-522 | one turn fails iff the case has a truthy off-catalog room and something to record, otherwise extends the tally by that case |
| Drapes.TallyDrapes | App.tsx:496-525 | the loop fails iff some case breaks it, otherwise returns counts and "other" lists per room and totals exactly as counted case by case |
| Drapes.TotalsAreRoomSums | App.tsx:509-524 | when nothing breaks, each type's total is the sum of the room counts, and the "other" total the sum of the room lists' lengths |
| Seed.InitialSurgeries | constants.ts:28-38 | nine cases with ids 1..9 in order, all dated today, none flagged |
| Seed.SeedIdsUnique | constants.ts:28-38 | the seed's ids are pairwise distinct and are exactly 1..9 |
| Seed.SeedHasNoConflicts | constants.ts:28-38 | no seed room holds overlapping cases, so detection flags nothing and returns the seed unchanged |
| Seed.SeedUnassignedCase | constants.ts:37 | seed 9 is the day's only unassigned case, is never flagged, and a drop gives it 60 minutes |
| Seed.SeedDrapeTally | constants.ts:28-38 | in the seed's tally room 2 lists "Săng cổ", no other room lists anything, the "other" total is 1, seed 9 is skipped and no case breaks the loop |
| Scenarios.NestedCaseEscapes | App.tsx:734-743 | for A 08:00-12:00, B 08:30-09:00, C 09:30-10:00 in one room, A overlaps C, yet A and B are flagged and C is not |
| Scenarios.OtherDaysStillClash | App.tsx:722-747 | two overlapping cases in one room are both flagged even when their dates differ |
| Scenarios.SortedRoomFlags | App.tsx:734-743 | in a start-ordered one-room list with unique ids, a case is flagged iff it overlaps its predecessor or its successor |

## Left out

- JSX rendering, styling, colours, the header, the modal's field handlers and
  every DOM event: these are presentation. Pointer positions are parameters
  measured from the grid's top-left corner.
- `changeDate` and the date pickers: date arithmetic on calendar strings is
  not part of the scheduling core. Dates are opaque strings, compared for
  equality only.
- `Date.now()` and `new Date()`: these become the parameters `freshId` and
  `today`/`day`.
- The list view's filter `<select>` state: only the "all" setting is
  modelled. A filtered list view shows one of the groups modelled here.
- `getDepartmentInfo`'s fallback record for an unknown department: the
  department type is closed, so that branch cannot occur.
- `Number(text)` on text other than optional '-' and decimal digits:
  JavaScript reads some such texts as numbers (' 8', '+8', '8.5', '1e1')
  and the rest as NaN; the model reads all of them as 0. Every text the program
  itself writes is in the modelled form.
- Floating-point rounding: pixel arithmetic is exact real arithmetic. In
  the source, `Math.round` inside `minutesToTime` is the identity on
  every value that reaches it, because those values are integers already.
- TimeText.MinutesRoundTrip: stated for non-negative counts only. For
  negative counts the round trip fails, as `NegativeMinutesReadBackEarlier`
  states.
- Placement.ResizeRightKeepsQuarterHour: requires a start of at least -15.
  Below that the new end is negative and its text reads back earlier than
  the clamped minute.
- Store.Dropped: the duration claim assumes a start text that reads as a
  non-negative minute. Every drop target's start text does.
- Drapes.TallyDrapes: the source throws where a case with a truthy
  off-catalog room has a drape to record. The model answers `None` there.
