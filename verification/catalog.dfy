/** The board's static configuration: the operating-room and department
    catalogs, the drape types, and the Gantt geometry constants. Colours and
    other presentation metadata are not modelled. */
module Catalog {
  import opened Wrappers

  datatype DepartmentId = Orthopedics | General | Neuro | Cardio | Urology

  /** The listed drape types (`DrapeType`); the free-text sentinel `'Khác'`
      is not one of them. */
  datatype DrapeType = TrungPhau | DaiPhau | SangLo

  datatype OperatingRoom = OperatingRoom(id: int, name: string)

  datatype Department = Department(id: DepartmentId, name: string)

  const Departments: seq<Department> := [
    Department(Orthopedics, "Chấn Thương Chỉnh Hình"),
    Department(General, "Tổng Quát"),
    Department(Neuro, "Ngoại Thần Kinh"),
    Department(Cardio, "Tim Mạch"),
    Department(Urology, "Tiết Niệu")
  ]

  const OperatingRooms: seq<OperatingRoom> := [
    OperatingRoom(1, "Phòng Mổ 1"),
    OperatingRoom(2, "Phòng Mổ 2"),
    OperatingRoom(3, "Phòng Mổ 3"),
    OperatingRoom(4, "Phòng Mổ 4"),
    OperatingRoom(5, "Phòng Mổ 5"),
    OperatingRoom(6, "Phòng Mổ 6"),
    OperatingRoom(7, "Phòng Mổ 7"),
    OperatingRoom(8, "Phòng Mổ 8"),
    OperatingRoom(9, "Phòng Mổ 9"),
    OperatingRoom(10, "Phòng Mổ 10")
  ]

  /** The number of catalog rooms, which is also the number of Gantt rows. */
  const RoomCount: nat := 10

  /** `Object.values(DrapeType)`, in declaration order. */
  const DrapeTypes: seq<DrapeType> := [TrungPhau, DaiPhau, SangLo]

  const GanttStartHour: int := 7
  const GanttEndHour: int := 19
  const GanttTotalHours: int := GanttEndHour - GanttStartHour
  const PixelsPerMinute: int := 3
  const GanttRowHeight: int := 80
  /** Width of the room-label column left of the time grid (`w-40`). */
  const RoomLabelWidth: int := 160

  /** `OPERATING_ROOMS[row]?.id`: the room drawn in a Gantt row, if any. */
  function RoomAtRow(row: int): (r: Option<int>)
    ensures 0 <= row < 10 ==> r == Some(row + 1)
    ensures row < 0 || 10 <= row ==> r == None
  {
    if 0 <= row < |OperatingRooms| then Some(OperatingRooms[row].id) else None
  }

  /** The catalog position of a room id (the key of the drape tally's
      per-room record), if the id is in the catalog. */
  function RoomIndex(id: int): (r: Option<nat>)
    ensures r.Some? <==> 1 <= id <= RoomCount
    ensures r.Some? ==> r.value == id - 1
  {
    if 1 <= id <= |OperatingRooms| then Some(id - 1) else None
  }

  /** Predicate form of "this id names a catalog room". */
  predicate InCatalog(id: int) {
    exists k :: 0 <= k < |OperatingRooms| && OperatingRooms[k].id == id
  }

  /** The catalog lists rooms 1..10 in order, so its ids are exactly 1..10 and
      none is 0: an assigned catalog room always passes the `if (s.roomId)`
      truthiness test. */
  lemma RoomCatalogShape()
    ensures |OperatingRooms| == RoomCount == 10
    ensures forall k :: 0 <= k < |OperatingRooms| ==> OperatingRooms[k].id == k + 1
    ensures forall id :: InCatalog(id) <==> 1 <= id <= 10
    ensures forall id :: InCatalog(id) ==> id != 0
  {
    forall id | 1 <= id <= 10
      ensures InCatalog(id)
    {
      assert OperatingRooms[id - 1].id == id;
    }
  }

  /** The full-day window is 07:00-19:00, twelve hours wide. */
  lemma GanttGeometry()
    ensures GanttTotalHours == 12
    ensures GanttStartHour * 60 == 420 && GanttEndHour * 60 == 1140
    ensures |OperatingRooms| * GanttRowHeight == 800
  {
  }

  /** Every department appears exactly once in the department catalog. */
  lemma DepartmentCatalogCovers(d: DepartmentId)
    ensures exists k :: 0 <= k < |Departments| && Departments[k].id == d
    ensures forall j, k :: 0 <= j < k < |Departments| ==> Departments[j].id != Departments[k].id
  {
    match d
    case Orthopedics => assert Departments[0].id == d;
    case General => assert Departments[1].id == d;
    case Neuro => assert Departments[2].id == d;
    case Cardio => assert Departments[3].id == d;
    case Urology => assert Departments[4].id == d;
  }
}
