/** The Gantt board's geometry and pointer gestures on one case: the time
    window of each zoom level, moving a block (preview while the pointer
    moves, commit on release), stretching either edge with its 15-minute
    clamp, and the target of a drop from the unassigned list. Pointer
    positions are exact reals measured from the grid's top-left corner. */
module Placement {
  import opened Wrappers
  import opened TimeText
  import opened Catalog
  import opened Surgeries

  // ---------------------------------------------------------------------
  // Zoom levels
  // ---------------------------------------------------------------------

  /** `TimeScale`: the whole day, or one half of it at double scale. */
  datatype TimeScale = All | Morning | Afternoon

  datatype GanttConfig = GanttConfig(startHour: int, endHour: int, pixelsPerMinute: int) {
    /** `ganttOffsetMinutes`: the minute drawn at the grid's left edge. */
    function Offset(): int {
      startHour * 60
    }

    /** `totalWidth`: the grid's width in pixels. */
    function TotalWidth(): int {
      (endHour - startHour) * 60 * pixelsPerMinute
    }
  }

  /** `ganttConfig`: 07-13 and 13-19 at twice the pixels per minute, or
      the whole window 07-19 at the base scale. */
  function ConfigFor(scale: TimeScale): (c: GanttConfig)
    ensures c.pixelsPerMinute > 0 && c.Offset() % 5 == 0
    ensures GanttStartHour <= c.startHour < c.endHour <= GanttEndHour
    ensures c.TotalWidth() == GanttTotalHours * 60 * PixelsPerMinute
    ensures scale == All <==> c.pixelsPerMinute == PixelsPerMinute
    ensures scale != All ==> c.endHour - c.startHour == GanttTotalHours / 2
  {
    match scale
    case Morning => GanttConfig(7, 13, PixelsPerMinute * 2)
    case Afternoon => GanttConfig(13, 19, PixelsPerMinute * 2)
    case All => GanttConfig(GanttStartHour, GanttEndHour, PixelsPerMinute)
  }

  /** The two half-day windows tile the full window, meeting at 13:00. */
  lemma HalvesTileTheDay()
    ensures ConfigFor(Morning).startHour == ConfigFor(All).startHour
    ensures ConfigFor(Morning).endHour == ConfigFor(Afternoon).startHour == 13
    ensures ConfigFor(Afternoon).endHour == ConfigFor(All).endHour
    ensures ConfigFor(Morning).pixelsPerMinute == 2 * ConfigFor(All).pixelsPerMinute
  {
  }

  /** `px / pixelsPerMinute`: a horizontal distance in pixels, as minutes.
      The divisor is written out per zoom level so that the arithmetic stays
      linear; `ScaleConversions` ties it to `ConfigFor`. */
  function PixelsToMinutes(px: real, scale: TimeScale): real {
    match scale
    case All => px / 3.0
    case Morning => px / 6.0
    case Afternoon => px / 6.0
  }

  /** `minutes * pixelsPerMinute`: a duration in minutes, as pixels. */
  function MinutesToPixels(m: int, scale: TimeScale): int {
    match scale
    case All => m * 3
    case Morning => m * 6
    case Afternoon => m * 6
  }

  lemma ScaleConversions(scale: TimeScale, px: real, m: int)
    ensures PixelsToMinutes(px, scale) * (ConfigFor(scale).pixelsPerMinute as real) == px
    ensures MinutesToPixels(m, scale) == m * ConfigFor(scale).pixelsPerMinute
  {
  }

  /** Pixels and back: converting minutes to pixels, shifting by `dx`, and
      converting back is the same as shifting by `dx` in minutes. */
  lemma PixelShift(m: int, dx: real, scale: TimeScale)
    ensures PixelsToMinutes(MinutesToPixels(m, scale) as real + dx, scale)
      == m as real + PixelsToMinutes(dx, scale)
  {
  }

  /** `Math.max` on two reals. */
  function RMax(a: real, b: real): (r: real)
    ensures r >= a && r >= b && (r == a || r == b)
  {
    if a >= b then a else b
  }

  /** `Math.floor(yPos / GANTT_ROW_HEIGHT)`: the Gantt row under a height. */
  function RowAt(y: real): int {
    (y / 80.0).Floor
  }

  /** Row `k` covers the heights from `k * GANTT_ROW_HEIGHT` up to, but not
      including, the next row's top. */
  lemma RowAtBand(y: real, k: int)
    ensures RowAt(y) == k <==>
      k as real * GanttRowHeight as real <= y < (k + 1) as real * GanttRowHeight as real
  {
  }

  // ---------------------------------------------------------------------
  // Moving a block
  // ---------------------------------------------------------------------

  /** The start minute a move lands on: the dragged start, never left of
      the window, rounded to 5 minutes. */
  function DragStartMinutes(s: Surgery, dx: real, scale: TimeScale): (m: int)
    ensures m >= ConfigFor(scale).Offset() && m % 5 == 0
    ensures var want := RMax(ConfigFor(scale).Offset() as real, StartOf(s) as real + PixelsToMinutes(dx, scale));
      want - 2.5 < m as real <= want + 2.5
  {
    var offset := ConfigFor(scale).Offset();
    var want := RMax(offset as real, StartOf(s) as real + PixelsToMinutes(dx, scale));
    RoundToNearest5AtLeast(want, offset);
    RoundToNearest5(want)
  }

  /** The start minute the indicator shows while a block is moved: it
      follows the ghost's left edge, `initialLeft + deltaX`, converted back
      to minutes, kept inside the window and rounded to 5 minutes. */
  function GhostStartMinutes(s: Surgery, dx: real, scale: TimeScale): (m: int)
    ensures m >= ConfigFor(scale).Offset() && m % 5 == 0
  {
    var cfg := ConfigFor(scale);
    var initialLeft := MinutesToPixels(StartOf(s) - cfg.Offset(), scale) as real;
    var x := initialLeft + dx;
    var total := cfg.Offset() as real + PixelsToMinutes(x, scale);
    RoundToNearest5AtLeast(RMax(cfg.Offset() as real, total), cfg.Offset());
    RoundToNearest5(RMax(cfg.Offset() as real, total))
  }

  /** The texts of a case moved to start at `start` with its duration
      kept; the same texts appear on the indicator and in the store. */
  function MovedTimes(s: Surgery, start: int): (times: (string, string))
    ensures start >= 0 ==> TimeToMinutes(times.0) == start
    ensures start >= 0 && start + (EndOf(s) - StartOf(s)) >= 0 ==>
      TimeToMinutes(times.1) - TimeToMinutes(times.0) == EndOf(s) - StartOf(s)
  {
    var dur := EndOf(s) - StartOf(s);
    ShiftReadsBack(start, dur);
    (MinutesToTime(start), MinutesToTime(EndMinute(start, dur)))
  }

  /** The time-indicator text while a block is moved. */
  function DragPreview(s: Surgery, dx: real, scale: TimeScale): (times: (string, string))
  {
    MovedTimes(s, GhostStartMinutes(s, dx, scale))
  }

  /** The case a released move hands to the store. Over a catalog row the
      case goes to that row's room, starting at the dragged start (never
      left of the window, on a 5-minute mark) and keeping its duration;
      elsewhere it comes back unchanged. */
  function DragCommit(s: Surgery, dx: real, y: real, scale: TimeScale): (r: Surgery)
    ensures RoomAtRow(RowAt(y)).None? ==> r == s
    ensures RoomAtRow(RowAt(y)).Some? ==> r.roomId == RoomAtRow(RowAt(y))
    ensures RoomAtRow(RowAt(y)).Some? ==> StartOf(r) == DragStartMinutes(s, dx, scale)
    ensures RoomAtRow(RowAt(y)).Some? && DragStartMinutes(s, dx, scale) + (EndOf(s) - StartOf(s)) >= 0 ==>
      EndOf(r) - StartOf(r) == EndOf(s) - StartOf(s)
    ensures SameExceptPlacement(r, s)
  {
    match RoomAtRow(RowAt(y))
    case None => s
    case Some(room) =>
      var times := MovedTimes(s, DragStartMinutes(s, dx, scale));
      s.(roomId := Some(room), startTime := times.0, endTime := times.1)
  }

  /** The ghost's left edge converted back to minutes is the case's start
      shifted by the pointer, so both ways of computing the start agree. */
  lemma GhostMatchesDrag(s: Surgery, dx: real, scale: TimeScale)
    ensures GhostStartMinutes(s, dx, scale) == DragStartMinutes(s, dx, scale)
  {
    PixelShift(StartOf(s) - ConfigFor(scale).Offset(), dx, scale);
  }

  /** Over a catalog row, what the indicator shows during the move is what
      the release commits. */
  lemma PreviewMatchesCommit(s: Surgery, dx: real, y: real, scale: TimeScale)
    ensures var r := DragCommit(s, dx, y, scale);
      RoomAtRow(RowAt(y)).Some? ==> DragPreview(s, dx, scale) == (r.startTime, r.endTime)
  {
    GhostMatchesDrag(s, dx, scale);
  }

  // ---------------------------------------------------------------------
  // Stretching an edge
  // ---------------------------------------------------------------------

  datatype Edge = Left | Right

  /** The new start minute while the left edge is dragged: rounded to 5
      minutes, but never closer than 15 minutes to the end. */
  function ResizeLeftStart(s: Surgery, dx: real, scale: TimeScale): (m: int)
    ensures m <= EndOf(s) - 15
    ensures m == EndOf(s) - 15 || m == RoundToNearest5(StartOf(s) as real + PixelsToMinutes(dx, scale))
    ensures m <= RoundToNearest5(StartOf(s) as real + PixelsToMinutes(dx, scale))
    ensures m < EndOf(s) - 15 ==> m % 5 == 0
  {
    var rounded := RoundToNearest5(StartOf(s) as real + PixelsToMinutes(dx, scale));
    if rounded <= EndOf(s) - 15 then rounded else EndOf(s) - 15
  }

  /** The new end minute while the right edge is dragged: rounded to 5
      minutes, but never closer than 15 minutes to the start. */
  function ResizeRightEnd(s: Surgery, dx: real, scale: TimeScale): (m: int)
    ensures m >= StartOf(s) + 15
    ensures m == StartOf(s) + 15 || m == RoundToNearest5(EndOf(s) as real + PixelsToMinutes(dx, scale))
    ensures m >= RoundToNearest5(EndOf(s) as real + PixelsToMinutes(dx, scale))
    ensures m > StartOf(s) + 15 ==> m % 5 == 0
  {
    var rounded := RoundToNearest5(EndOf(s) as real + PixelsToMinutes(dx, scale));
    if rounded >= StartOf(s) + 15 then rounded else StartOf(s) + 15
  }

  /** The time-indicator text while an edge is dragged: the dragged edge
      shows the clamped minute, the other edge its old text. */
  function ResizePreview(s: Surgery, edge: Edge, dx: real, scale: TimeScale): (times: (string, string))
    ensures edge == Left ==> times.1 == s.endTime
    ensures edge == Right ==> times.0 == s.startTime
    ensures edge == Left && ResizeLeftStart(s, dx, scale) >= 0 ==>
      TimeToMinutes(times.0) == ResizeLeftStart(s, dx, scale)
    ensures edge == Right && ResizeRightEnd(s, dx, scale) >= 0 ==>
      TimeToMinutes(times.1) == ResizeRightEnd(s, dx, scale)
  {
    match edge
    case Left =>
      MinutesRoundTrip(ResizeLeftStart(s, dx, scale));
      (MinutesToTime(ResizeLeftStart(s, dx, scale)), s.endTime)
    case Right =>
      MinutesRoundTrip(ResizeRightEnd(s, dx, scale));
      (s.startTime, MinutesToTime(ResizeRightEnd(s, dx, scale)))
  }

  /** The case a released edge drag hands to the store: only the dragged
      edge's time changes; the room and every other field stay. */
  function ResizeCommit(s: Surgery, edge: Edge, dx: real, scale: TimeScale): (r: Surgery)
    ensures SameExceptPlacement(r, s) && r.roomId == s.roomId
    ensures edge == Left ==> r.endTime == s.endTime
    ensures edge == Right ==> r.startTime == s.startTime
    ensures (r.startTime, r.endTime) == ResizePreview(s, edge, dx, scale)
    ensures edge == Left && ResizeLeftStart(s, dx, scale) >= 0 ==> StartOf(r) == ResizeLeftStart(s, dx, scale)
    ensures edge == Right && ResizeRightEnd(s, dx, scale) >= 0 ==> EndOf(r) == ResizeRightEnd(s, dx, scale)
  {
    match edge
    case Left => s.(startTime := MinutesToTime(ResizeLeftStart(s, dx, scale)))
    case Right => s.(endTime := MinutesToTime(ResizeRightEnd(s, dx, scale)))
  }

  /** After a left-edge drag the case lasts at least 15 minutes, whatever
      the pointer did: the text of the new start never reads back later
      than the clamped minute. */
  lemma ResizeLeftKeepsQuarterHour(s: Surgery, dx: real, scale: TimeScale)
    ensures var r := ResizeCommit(s, Left, dx, scale);
      EndOf(r) - StartOf(r) >= 15
  {
    ParsedNoLater(ResizeLeftStart(s, dx, scale));
  }

  /** After a right-edge drag the case lasts at least 15 minutes when its
      start is no earlier than a quarter hour before midnight. */
  lemma ResizeRightKeepsQuarterHour(s: Surgery, dx: real, scale: TimeScale)
    requires StartOf(s) >= -15
    ensures var r := ResizeCommit(s, Right, dx, scale);
      EndOf(r) - StartOf(r) >= 15
  {
    MinutesRoundTrip(ResizeRightEnd(s, dx, scale));
  }

  /** A 09:00-10:00 case whose left edge is pushed far to the right stops
      at 09:45, a quarter hour before its unchanged end. */
  lemma ResizeLeftClampExample(s: Surgery)
    requires s.startTime == "09:00" && s.endTime == "10:00"
    ensures ResizeCommit(s, Left, 600.0, All).startTime == "09:45"
    ensures ResizeCommit(s, Left, 600.0, All).endTime == "10:00"
  {
    ResizeLeftClampMinutes(s);
    NineFortyFiveText(ResizeLeftStart(s, 600.0, All));
  }

  lemma ResizeLeftClampMinutes(s: Surgery)
    requires s.startTime == "09:00" && s.endTime == "10:00"
    ensures ResizeLeftStart(s, 600.0, All) == 585
  {
    RoundToNearest5Unique(740.0, 740);
    assert PixelsToMinutes(600.0, All) == 200.0;
    Reads0900();
    Reads1000();
  }

  // ---------------------------------------------------------------------
  // Gestures
  // ---------------------------------------------------------------------

  /** The two gestures a block accepts: moving it, or dragging one edge. */
  datatype Gesture = Move | Resize(edge: Edge)

  /** `handleMouseMove`'s indicator text for a gesture in progress. */
  function GesturePreview(s: Surgery, g: Gesture, dx: real, scale: TimeScale): (string, string) {
    match g
    case Move => DragPreview(s, dx, scale)
    case Resize(edge) => ResizePreview(s, edge, dx, scale)
  }

  /** `handleMouseUp`: the case handed to the store when a gesture ends at
      horizontal shift `dx` and height `y`. */
  function Release(s: Surgery, g: Gesture, dx: real, y: real, scale: TimeScale): (r: Surgery)
    ensures r.id == s.id && SameExceptPlacement(r, s)
    ensures g.Move? && RoomAtRow(RowAt(y)).None? ==> r == s
    ensures g.Resize? ==> r.roomId == s.roomId
    ensures g.Move? && RoomAtRow(RowAt(y)).Some? ==> (r.startTime, r.endTime) == GesturePreview(s, g, dx, scale)
    ensures g.Resize? ==> (r.startTime, r.endTime) == GesturePreview(s, g, dx, scale)
  {
    match g
    case Move =>
      PreviewMatchesCommit(s, dx, y, scale);
      DragCommit(s, dx, y, scale)
    case Resize(edge) => ResizeCommit(s, edge, dx, scale)
  }

  // ---------------------------------------------------------------------
  // Dropping an unassigned case onto the grid
  // ---------------------------------------------------------------------

  /** The minute under the pointer at `x`, where `x` includes the
      160-pixel room-label column. */
  function PointerMinute(x: real, scale: TimeScale): real {
    ConfigFor(scale).Offset() as real + PixelsToMinutes(x - RoomLabelWidth as real, scale)
  }

  /** `handleDrop`'s target for a drop at (`x`, `y`): the catalog room under
      the pointer and the start text, the pointer's minute rounded to 5
      minutes and never left of the window. Off the catalog rows there is
      no target. Nothing bounds the start on the right. */
  function DropTarget(x: real, y: real, scale: TimeScale): (t: Option<(int, string)>)
    ensures t.None? <==> RoomAtRow(RowAt(y)).None?
    ensures t.Some? ==> Some(t.value.0) == RoomAtRow(RowAt(y))
    ensures t.Some? ==> var m := TimeToMinutes(t.value.1);
      m >= ConfigFor(scale).Offset() && m % 5 == 0
    ensures t.Some? ==> var m := TimeToMinutes(t.value.1);
      (m == ConfigFor(scale).Offset() && PointerMinute(x, scale) <= m as real + 2.5)
      || (PointerMinute(x, scale) - 2.5 < m as real <= PointerMinute(x, scale) + 2.5)
  {
    match RoomAtRow(RowAt(y))
    case None => None
    case Some(room) =>
      var cfg := ConfigFor(scale);
      var total := RoundToNearest5(PointerMinute(x, scale));
      var start := if cfg.Offset() >= total then cfg.Offset() else total;
      MinutesRoundTrip(start);
      Some((room, MinutesToTime(start)))
  }
}
