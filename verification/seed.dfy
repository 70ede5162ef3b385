/** The nine cases the board starts with (`INITIAL_SURGERIES`), all dated
    `today`, and what the model says about them: distinct ids, no conflict
    in any room, one unassigned zero-length case that a drop turns into an
    hour, and a drape tally whose only "other" text is room 2's. */
module Seed {
  import opened Wrappers
  import opened Seqs
  import opened TimeText
  import opened Catalog
  import opened Surgeries
  import opened Conflicts
  import opened Store
  import opened Projections
  import opened Drapes

  /** `INITIAL_SURGERIES`, in the source's order. */
  function InitialSurgeries(today: string): (items: seq<Surgery>)
    ensures |items| == 9
    ensures forall k :: 0 <= k < |items| ==> items[k].id == k + 1 && items[k].date == today && !items[k].isConflicting
  {
    [Case1(today), Case2(today), Case3(today), Case4(today), Case5(today), Case6(today), Case7(today), Case8(today), Case9(today)]
  }

  function Case1(today: string): Surgery {
    Surgery(1, "Nguyễn Văn A", 45, "Gãy xương đùi", "Nẹp vít xương đùi", "BS. Tuấn", Orthopedics, today,
      "08:00", "10:30", Some(1), ["C-Arm"], false, Some(Listed(DaiPhau)), "")
  }

  function Case2(today: string): Surgery {
    Surgery(2, "Trần Thị B", 60, "Viêm ruột thừa", "Cắt ruột thừa nội soi", "BS. Lan", General, today,
      "09:00", "10:00", Some(2), [], false, Some(Listed(TrungPhau)), "")
  }

  function Case3(today: string): Surgery {
    Surgery(3, "Lê Văn C", 55, "U não", "Phẫu thuật u não", "BS. Hùng", Neuro, today,
      "08:30", "13:00", Some(3), ["Kính hiển vi"], false, Some(Listed(DaiPhau)), "")
  }

  function Case4(today: string): Surgery {
    Surgery(4, "Phạm Thị D", 72, "Hẹp van động mạch chủ", "Thay van động mạch chủ", "BS. Tuấn", Cardio, today,
      "11:00", "15:00", Some(1), ["Máy tuần hoàn ngoài cơ thể"], false, Some(Listed(DaiPhau)), "")
  }

  function Case5(today: string): Surgery {
    Surgery(5, "Vũ Văn E", 30, "Sỏi thận", "Tán sỏi qua da", "BS. Minh", Urology, today,
      "10:30", "12:00", Some(2), [], false, Some(Listed(SangLo)), "")
  }

  function Case6(today: string): Surgery {
    Surgery(6, "Hồ Thị F", 25, "Thoát vị bẹn", "Phẫu thuật thoát vị bẹn", "BS. Lan", General, today,
      "14:00", "15:30", Some(4), [], false, Some(Listed(TrungPhau)), "")
  }

  function Case7(today: string): Surgery {
    Surgery(7, "Đặng Văn G", 68, "Thay khớp gối", "Thay toàn bộ khớp gối", "BS. An", Orthopedics, today,
      "13:30", "16:00", Some(5), [], false, Some(Listed(DaiPhau)), "")
  }

  function Case8(today: string): Surgery {
    Surgery(8, "Hoàng Thị H", 50, "U tuyến giáp", "Cắt tuyến giáp", "BS. Dũng", General, today,
      "16:00", "17:30", Some(2), [], false, Some(OtherDrape), "Săng cổ")
  }

  function Case9(today: string): Surgery {
    Surgery(9, "Nguyễn Văn K", 42, "Yêu cầu mổ", "Chưa xác định", "BS. An", Orthopedics, today,
      "00:00", "00:00", None, ["Cần xếp lịch"], false, None, "")
  }

  /** The seed is its nine cases, in order. */
  lemma SeedCases(today: string)
    ensures InitialSurgeries(today) == [Case1(today), Case2(today), Case3(today), Case4(today), Case5(today),
                                        Case6(today), Case7(today), Case8(today), Case9(today)]
  {
  }

  /** The seed's start and end minutes. */
  lemma SeedMinutes(today: string)
    ensures && StartOf(Case1(today)) == 480 && EndOf(Case1(today)) == 630
      && StartOf(Case2(today)) == 540 && EndOf(Case2(today)) == 600
      && StartOf(Case3(today)) == 510 && EndOf(Case3(today)) == 780
      && StartOf(Case4(today)) == 660 && EndOf(Case4(today)) == 900
      && StartOf(Case5(today)) == 630 && EndOf(Case5(today)) == 720
      && StartOf(Case6(today)) == 840 && EndOf(Case6(today)) == 930
      && StartOf(Case7(today)) == 810 && EndOf(Case7(today)) == 960
      && StartOf(Case8(today)) == 960 && EndOf(Case8(today)) == 1050
      && StartOf(Case9(today)) == 0 && EndOf(Case9(today)) == 0
  {
    assert StartOf(Case1(today)) == 480 && EndOf(Case1(today)) == 630 by {
      Reads0800(); Reads1030();
    }
    assert StartOf(Case2(today)) == 540 && EndOf(Case2(today)) == 600 by {
      Reads0900(); Reads1000();
    }
    assert StartOf(Case3(today)) == 510 && EndOf(Case3(today)) == 780 by {
      Reads0830(); Reads1300();
    }
    assert StartOf(Case4(today)) == 660 && EndOf(Case4(today)) == 900 by {
      Reads1100(); Reads1500();
    }
    assert StartOf(Case5(today)) == 630 && EndOf(Case5(today)) == 720 by {
      Reads1030(); Reads1200();
    }
    assert StartOf(Case6(today)) == 840 && EndOf(Case6(today)) == 930 by {
      Reads1400(); Reads1530();
    }
    assert StartOf(Case7(today)) == 810 && EndOf(Case7(today)) == 960 by {
      Reads1330(); Reads1600();
    }
    assert StartOf(Case8(today)) == 960 && EndOf(Case8(today)) == 1050 by {
      Reads1600(); Reads1730();
    }
    assert StartOf(Case9(today)) == 0 && EndOf(Case9(today)) == 0 by {
      Reads0000();
    }
  }

  /** The seed's ids are 1..9, pairwise distinct. */
  lemma SeedIdsUnique(today: string)
    ensures UniqueIds(InitialSurgeries(today))
    ensures forall id :: id in Ids(InitialSurgeries(today)) <==> 1 <= id <= 9
  {
    var s := InitialSurgeries(today);
    forall id | 1 <= id <= 9
      ensures id in Ids(s)
    {
      assert s[id - 1].id == id;
    }
  }

  /** The rooms of the nine cases. */
  lemma SeedRooms(today: string)
    ensures Case1(today).roomId == Some(1) && Case4(today).roomId == Some(1)
    ensures Case2(today).roomId == Some(2) && Case5(today).roomId == Some(2) && Case8(today).roomId == Some(2)
    ensures Case3(today).roomId == Some(3) && Case6(today).roomId == Some(4) && Case7(today).roomId == Some(5)
    ensures Case9(today).roomId == None
  {
  }

  /** Each position of the seed holds its case. */
  lemma SeedIndex(today: string, j: int)
    requires 0 <= j < 9
    ensures var c := InitialSurgeries(today)[j];
      && (j == 0 ==> c == Case1(today)) && (j == 1 ==> c == Case2(today)) && (j == 2 ==> c == Case3(today))
      && (j == 3 ==> c == Case4(today)) && (j == 4 ==> c == Case5(today)) && (j == 5 ==> c == Case6(today))
      && (j == 6 ==> c == Case7(today)) && (j == 7 ==> c == Case8(today)) && (j == 8 ==> c == Case9(today))
  {
    SeedCases(today);
  }

  /** Every member of the seed is one of its nine cases. */
  lemma SeedMember(today: string, a: Surgery)
    requires a in InitialSurgeries(today)
    ensures || a == Case1(today) || a == Case2(today) || a == Case3(today)
            || a == Case4(today) || a == Case5(today) || a == Case6(today)
            || a == Case7(today) || a == Case8(today) || a == Case9(today)
  {
    SeedCases(today);
  }

  /** No two seed cases of one room overlap, so conflict detection flags
      nothing and hands the seed back unchanged. */
  lemma SeedHasNoConflicts(today: string)
    ensures ConflictingIds(InitialSurgeries(today)) == {}
    ensures CheckConflicts(InitialSurgeries(today)) == InitialSurgeries(today)
  {
    var s := InitialSurgeries(today);
    SeedIdsUnique(today);
    SeedMinutes(today);
    SeedRooms(today);
    forall a | a in s && HasRoom(a)
      ensures StartOf(a) < EndOf(a)
    {
      SeedMember(today, a);
    }
    forall a, b | a in s && b in s && HasRoom(a) && a.roomId == b.roomId && a.id != b.id
      ensures !Overlap(a, b)
    {
      SeedMember(today, a);
      SeedMember(today, b);
    }
    NoOverlapMeansNoFlags(s);
  }

  /** Seed 9 is the only unassigned case, is never flagged, and lasts zero
      minutes, so dropping it onto the board gives it an hour. */
  lemma SeedUnassignedCase(today: string)
    ensures Unassigned(InitialSurgeries(today), today) == [InitialSurgeries(today)[8]]
    ensures !CheckConflicts(InitialSurgeries(today))[8].isConflicting
    ensures DropLength(InitialSurgeries(today)[8]) == 60
  {
    var s := InitialSurgeries(today);
    SeedCases(today);
    SeedRooms(today);
    assert DayCases(s, today) == s by {
      FilterAll(s, OnDate(today));
    }
    assert Filter(s, Unplaced()) == [s[8]] by {
      forall j | 0 <= j < 8
        ensures s[j].roomId.Some?
      {
        SeedIndex(today, j);
      }
      FilterOnly(s, Unplaced(), 8);
    }
    assert !CheckConflicts(s)[8].isConflicting by {
      SeedIdsUnique(today);
      UnassignedNeverFlagged(s, 8);
    }
    assert StartOf(s[8]) == 0 && EndOf(s[8]) == 0 by {
      SeedMinutes(today);
    }
  }

  /** Filtering keeps exactly the one element that passes. */
  lemma {:induction false} FilterOnly(xs: seq<Surgery>, p: Surgery -> bool, i: int)
    requires 0 <= i < |xs| && p(xs[i])
    requires forall j :: 0 <= j < |xs| && j != i ==> !p(xs[j])
    ensures Filter(xs, p) == [xs[i]]
  {
    if i == 0 {
      FilterNone(xs[1..], p);
    } else {
      FilterOnly(xs[1..], p, i - 1);
    }
  }

  lemma {:induction false} FilterNone(xs: seq<Surgery>, p: Surgery -> bool)
    requires forall j :: 0 <= j < |xs| ==> !p(xs[j])
    ensures Filter(xs, p) == []
  {
    if xs != [] {
      FilterNone(xs[1..], p);
    }
  }

  /** The drapes of the nine cases: seed 8 alone carries the "other" tag,
      with its text; seed 9 has none. */
  lemma SeedDrapes(today: string)
    ensures Case1(today).drapeType == Some(Listed(DaiPhau)) && Case2(today).drapeType == Some(Listed(TrungPhau))
    ensures Case3(today).drapeType == Some(Listed(DaiPhau)) && Case4(today).drapeType == Some(Listed(DaiPhau))
    ensures Case5(today).drapeType == Some(Listed(SangLo)) && Case6(today).drapeType == Some(Listed(TrungPhau))
    ensures Case7(today).drapeType == Some(Listed(DaiPhau))
    ensures Case8(today).drapeType == Some(OtherDrape) && Case8(today).drapeOther == "Săng cổ"
    ensures Case9(today).drapeType == None
  {
  }

  /** Only seed 8 passes either "other" filter. */
  lemma SeedOtherCases(today: string, room: int)
    ensures forall j :: 0 <= j < 9 && j != 7 ==>
      !OtherIn(room)(InitialSurgeries(today)[j]) && !OtherAnywhere()(InitialSurgeries(today)[j])
    ensures InitialSurgeries(today)[7] == Case8(today)
  {
    SeedRooms(today);
    SeedDrapes(today);
    forall j | 0 <= j < 9 && j != 7
      ensures !OtherIn(room)(InitialSurgeries(today)[j]) && !OtherAnywhere()(InitialSurgeries(today)[j])
    {
      SeedIndex(today, j);
    }
    SeedIndex(today, 7);
  }

  lemma SeedOthersIn(today: string, room: int)
    ensures Filter(InitialSurgeries(today), OtherIn(room)) == if room == 2 then [Case8(today)] else []
  {
    SeedOtherCases(today, room);
    SeedRooms(today);
    SeedDrapes(today);
    if room == 2 {
      FilterOnly(InitialSurgeries(today), OtherIn(room), 7);
    } else {
      FilterNone(InitialSurgeries(today), OtherIn(room));
    }
  }

  lemma SeedOthersAnywhere(today: string)
    ensures Filter(InitialSurgeries(today), OtherAnywhere()) == [Case8(today)]
  {
    SeedOtherCases(today, 0);
    SeedRooms(today);
    SeedDrapes(today);
    FilterOnly(InitialSurgeries(today), OtherAnywhere(), 7);
  }

  /** In the seed's drape tally, seed 8's "Săng cổ" is the only "other"
      text, listed under room 2; seed 9, with no room and no drape, is
      counted nowhere; and no seed case breaks the tally. */
  lemma SeedDrapeTally(today: string, t: Tally)
    requires TallyOf(InitialSurgeries(today), t)
    ensures t.rooms[1].others == ["Săng cổ"]
    ensures forall k :: 0 <= k < RoomCount && k != 1 ==> t.rooms[k].others == []
    ensures t.othersCount == 1
    ensures Skipped(InitialSurgeries(today)[8])
    ensures forall i :: 0 <= i < 9 ==> !Breaks(InitialSurgeries(today)[i])
  {
    var s := InitialSurgeries(today);
    assert t.rooms[1].others == ["Săng cổ"] by {
      SeedOthersIn(today, 2);
      SeedDrapes(today);
      assert t.rooms[2 - 1].others == OtherTexts(Filter(s, OtherIn(2)));
    }
    forall k | 0 <= k < RoomCount && k != 1
      ensures t.rooms[k].others == []
    {
      var room := k + 1;
      SeedOthersIn(today, room);
      assert t.rooms[room - 1].others == OtherTexts(Filter(s, OtherIn(room)));
    }
    assert t.othersCount == 1 by {
      SeedOthersAnywhere(today);
    }
    SeedRooms(today);
    SeedDrapes(today);
    forall i | 0 <= i < 9
      ensures !Breaks(s[i])
    {
      SeedIndex(today, i);
    }
    assert Skipped(s[8]) by {
      SeedIndex(today, 8);
    }
  }
}
