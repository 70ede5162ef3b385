/** The drape-count screen (`DrapeCountView`): per catalog room, how many
    cases use each listed drape type and the free texts of the `'Khác'`
    ("other") cases; over all rooms, the totals per type and the number of
    "other" texts. A case counts when its room is truthy and it has a drape
    tag. A counted case whose room is not in the catalog has no record to
    add to, and the source throws there; the model answers `None`. */
module Drapes {
  import opened Wrappers
  import opened Seqs
  import opened Catalog
  import opened StableSort
  import opened Surgeries

  /** A count per listed drape type (`{ [type]: number }`, an absent key
      reading as 0). */
  datatype DrapeCounts = DrapeCounts(trungPhau: nat, daiPhau: nat, sangLo: nat) {
    function Get(t: DrapeType): nat {
      match t
      case TrungPhau => trungPhau
      case DaiPhau => daiPhau
      case SangLo => sangLo
    }

    function Inc(t: DrapeType): (r: DrapeCounts)
      ensures r.Get(t) == Get(t) + 1
      ensures forall u :: u != t ==> r.Get(u) == Get(u)
    {
      match t
      case TrungPhau => this.(trungPhau := trungPhau + 1)
      case DaiPhau => this.(daiPhau := daiPhau + 1)
      case SangLo => this.(sangLo := sangLo + 1)
    }
  }

  const NoCounts := DrapeCounts(0, 0, 0)

  /** One room's record: its counts and its "other" texts in list order
      (the name and colours it also carries are presentation). */
  datatype RoomTally = RoomTally(counts: DrapeCounts, others: seq<string>)

  /** The screen's data: one record per catalog room in catalog order, the
      totals per type, and the number of "other" texts. */
  datatype Tally = Tally(rooms: seq<RoomTally>, totals: DrapeCounts, othersCount: nat)

  // ---------------------------------------------------------------------
  // What the screen shows, case by case
  // ---------------------------------------------------------------------

  /** A case that adds to the count of type `t` in room `room`. */
  function ListedIn(room: int, t: DrapeType): Surgery -> bool {
    (s: Surgery) => HasRoom(s) && s.roomId == Some(room) && s.drapeType == Some(Listed(t))
  }

  /** A case that adds to the total of type `t`. */
  function ListedAnywhere(t: DrapeType): Surgery -> bool {
    (s: Surgery) => HasRoom(s) && s.drapeType == Some(Listed(t))
  }

  /** A case whose "other" text is listed under room `room`. */
  function OtherIn(room: int): Surgery -> bool {
    (s: Surgery) => HasRoom(s) && s.roomId == Some(room) && s.drapeType == Some(OtherDrape) && s.drapeOther != ""
  }

  /** A case that adds to the "other" total. */
  function OtherAnywhere(): Surgery -> bool {
    (s: Surgery) => HasRoom(s) && s.drapeType == Some(OtherDrape) && s.drapeOther != ""
  }

  /** The "other" texts of a sequence of cases. */
  function OtherTexts(xs: seq<Surgery>): (texts: seq<string>)
    ensures |texts| == |xs|
    ensures forall i :: 0 <= i < |xs| ==> texts[i] == xs[i].drapeOther
  {
    seq(|xs|, i requires 0 <= i < |xs| => xs[i].drapeOther)
  }

  /** A case the source cannot tally: its room is truthy but not in the
      catalog, and it would add either to a count or to an "other" list. */
  predicate Breaks(s: Surgery) {
    HasRoom(s) && RoomIndex(s.roomId.value).None? && s.drapeType.Some?
      && (s.drapeType.value.Listed? || s.drapeOther != "")
  }

  /** The tally of `items`, stated case by case. The record of room `room`
      sits at position `room - 1`, which is where the catalog lists that
      room (`RoomCatalogShape`). */
  predicate TallyOf(items: seq<Surgery>, t: Tally) {
    && RoomCountsOf(items, t.rooms)
    && RoomOthersOf(items, t.rooms)
    && (forall d :: t.totals.Get(d) == Count(items, ListedAnywhere(d)))
    && t.othersCount == Count(items, OtherAnywhere())
  }

  predicate RoomCountsOf(items: seq<Surgery>, rooms: seq<RoomTally>) {
    |rooms| == RoomCount
      && forall room, d :: 1 <= room <= |rooms| ==> rooms[room - 1].counts.Get(d) == Count(items, ListedIn(room, d))
  }

  predicate RoomOthersOf(items: seq<Surgery>, rooms: seq<RoomTally>) {
    |rooms| == RoomCount
      && forall room :: 1 <= room <= |rooms| ==> rooms[room - 1].others == OtherTexts(Filter(items, OtherIn(room)))
  }

  // ---------------------------------------------------------------------
  // The loop of the source
  // ---------------------------------------------------------------------

  /** The empty records the source starts from. */
  function EmptyTally(): (t: Tally)
    ensures TallyOf([], t)
  {
    Tally(seq(RoomCount, k requires 0 <= k < RoomCount => RoomTally(NoCounts, [])),
          NoCounts, 0)
  }

  /** A case the loop passes over without touching any record. */
  predicate Skipped(s: Surgery) {
    !(HasRoom(s) && s.drapeType.Some?) || (s.drapeType == Some(OtherDrape) && s.drapeOther == "")
  }

  /** One turn of `surgeries.forEach`: `None` where the source throws. */
  function AddCase(t: Tally, s: Surgery): Option<Tally>
    requires |t.rooms| == RoomCount
  {
    if !(HasRoom(s) && s.drapeType.Some?) then Some(t)
    else match RoomIndex(s.roomId.value)
      case None =>
        if s.drapeType.value == OtherDrape && s.drapeOther == "" then Some(t) else None
      case Some(k) =>
        match s.drapeType.value
        case OtherDrape =>
          if s.drapeOther == "" then Some(t) else Some(AddOther(t, k, s.drapeOther))
        case Listed(d) =>
          Some(AddListed(t, k, d))
  }

  /** Appends `text` to record `k`'s "other" list and counts it. */
  function AddOther(t: Tally, k: nat, text: string): (r: Tally)
    requires k < |t.rooms|
    ensures |r.rooms| == |t.rooms| && r.totals == t.totals && r.othersCount == t.othersCount + 1
    ensures forall j :: 0 <= j < |t.rooms| ==> r.rooms[j].counts == t.rooms[j].counts
    ensures forall j :: 0 <= j < |t.rooms| ==> r.rooms[j].others == t.rooms[j].others + if j == k then [text] else []
  {
    t.(rooms := t.rooms[k := t.rooms[k].(others := t.rooms[k].others + [text])],
       othersCount := t.othersCount + 1)
  }

  /** Adds one to record `k`'s count of `d` and to the total of `d`. */
  function AddListed(t: Tally, k: nat, d: DrapeType): (r: Tally)
    requires k < |t.rooms|
    ensures |r.rooms| == |t.rooms| && r.othersCount == t.othersCount
    ensures forall e :: r.totals.Get(e) == t.totals.Get(e) + if e == d then 1 else 0
    ensures forall j :: 0 <= j < |t.rooms| ==> r.rooms[j].others == t.rooms[j].others
    ensures forall j, e :: 0 <= j < |t.rooms| ==> r.rooms[j].counts.Get(e) == t.rooms[j].counts.Get(e) + if j == k && e == d then 1 else 0
  {
    t.(rooms := t.rooms[k := t.rooms[k].(counts := t.rooms[k].counts.Inc(d))],
       totals := t.totals.Inc(d))
  }

  lemma CountSnoc(xs: seq<Surgery>, x: Surgery, p: Surgery -> bool)
    ensures Count(xs + [x], p) == Count(xs, p) + if p(x) then 1 else 0
  {
    FilterAppend(xs, [x], p);
    assert [x][1..] == [];
  }

  lemma OtherTextsSnoc(xs: seq<Surgery>, x: Surgery, p: Surgery -> bool)
    ensures OtherTexts(Filter(xs + [x], p)) == OtherTexts(Filter(xs, p)) + if p(x) then [x.drapeOther] else []
  {
    var a, b := Filter(xs, p), Filter([x], p);
    FilterAppend(xs, [x], p);
    FilterSingle(x, p);
    OtherTextsAppend(a, b);
  }

  lemma OtherTextsAppend(a: seq<Surgery>, b: seq<Surgery>)
    ensures OtherTexts(a + b) == OtherTexts(a) + OtherTexts(b)
  {
  }

  /** A skipped case leaves every count and every list as it is. */
  lemma SkipStep(xs: seq<Surgery>, t: Tally, s: Surgery)
    requires TallyOf(xs, t) && Skipped(s)
    ensures TallyOf(xs + [s], t)
  {
    assert RoomCountsOf(xs + [s], t.rooms) by {
      forall room, d | 1 <= room <= RoomCount
        ensures Count(xs + [s], ListedIn(room, d)) == Count(xs, ListedIn(room, d))
      {
        CountSnoc(xs, s, ListedIn(room, d));
      }
    }
    assert RoomOthersOf(xs + [s], t.rooms) by {
      forall room | 1 <= room <= RoomCount
        ensures OtherTexts(Filter(xs + [s], OtherIn(room))) == OtherTexts(Filter(xs, OtherIn(room)))
      {
        OtherTextsSnoc(xs, s, OtherIn(room));
      }
    }
    assert forall d :: t.totals.Get(d) == Count(xs + [s], ListedAnywhere(d)) by {
      forall d
        ensures Count(xs + [s], ListedAnywhere(d)) == Count(xs, ListedAnywhere(d))
      {
        CountSnoc(xs, s, ListedAnywhere(d));
      }
    }
    CountSnoc(xs, s, OtherAnywhere());
  }

  /** A listed drape in catalog room `k + 1` adds one to that room's count
      and to the total of its type. */
  lemma ListedStep(xs: seq<Surgery>, t: Tally, s: Surgery, k: nat, d: DrapeType)
    requires TallyOf(xs, t) && k < RoomCount
    requires HasRoom(s) && s.roomId == Some(k + 1) && s.drapeType == Some(Listed(d))
    ensures TallyOf(xs + [s], AddListed(t, k, d))
  {
    var t' := AddListed(t, k, d);
    assert RoomCountsOf(xs + [s], t'.rooms) by {
      forall room, e | 1 <= room <= RoomCount
        ensures t'.rooms[room - 1].counts.Get(e) == Count(xs + [s], ListedIn(room, e))
      {
        CountSnoc(xs, s, ListedIn(room, e));
        assert ListedIn(room, e)(s) <==> room - 1 == k && e == d;
      }
    }
    assert RoomOthersOf(xs + [s], t'.rooms) by {
      forall room | 1 <= room <= RoomCount
        ensures OtherTexts(Filter(xs + [s], OtherIn(room))) == OtherTexts(Filter(xs, OtherIn(room)))
      {
        OtherTextsSnoc(xs, s, OtherIn(room));
      }
    }
    assert forall e :: t'.totals.Get(e) == Count(xs + [s], ListedAnywhere(e)) by {
      forall e
        ensures t'.totals.Get(e) == Count(xs + [s], ListedAnywhere(e))
      {
        CountSnoc(xs, s, ListedAnywhere(e));
        assert ListedAnywhere(e)(s) <==> e == d;
      }
    }
    CountSnoc(xs, s, OtherAnywhere());
  }

  /** An "other" drape with a text, in catalog room `k + 1`, appends the
      text to that room's list and adds one to the "other" total. */
  lemma OtherStep(xs: seq<Surgery>, t: Tally, s: Surgery, k: nat)
    requires TallyOf(xs, t) && k < RoomCount
    requires HasRoom(s) && s.roomId == Some(k + 1) && s.drapeType == Some(OtherDrape) && s.drapeOther != ""
    ensures TallyOf(xs + [s], AddOther(t, k, s.drapeOther))
  {
    var t' := AddOther(t, k, s.drapeOther);
    assert RoomCountsOf(xs + [s], t'.rooms) by {
      forall room, e | 1 <= room <= RoomCount
        ensures Count(xs + [s], ListedIn(room, e)) == Count(xs, ListedIn(room, e))
      {
        CountSnoc(xs, s, ListedIn(room, e));
      }
    }
    assert RoomOthersOf(xs + [s], t'.rooms) by {
      forall room | 1 <= room <= RoomCount
        ensures t'.rooms[room - 1].others == OtherTexts(Filter(xs + [s], OtherIn(room)))
      {
        OtherTextsSnoc(xs, s, OtherIn(room));
        assert OtherIn(room)(s) <==> room - 1 == k;
      }
    }
    assert forall e :: t'.totals.Get(e) == Count(xs + [s], ListedAnywhere(e)) by {
      forall e
        ensures Count(xs + [s], ListedAnywhere(e)) == Count(xs, ListedAnywhere(e))
      {
        CountSnoc(xs, s, ListedAnywhere(e));
      }
    }
    CountSnoc(xs, s, OtherAnywhere());
  }

  /** A turn of the loop fails exactly on a case the source cannot tally,
      and otherwise extends the tally of the cases seen so far by one case. */
  lemma AddCaseStep(xs: seq<Surgery>, t: Tally, s: Surgery)
    requires TallyOf(xs, t)
    ensures AddCase(t, s).None? <==> Breaks(s)
    ensures AddCase(t, s).Some? ==> TallyOf(xs + [s], AddCase(t, s).value)
  {
    if Skipped(s) {
      SkipStep(xs, t, s);
    } else if RoomIndex(s.roomId.value).Some? {
      var k := RoomIndex(s.roomId.value).value;
      match s.drapeType.value
      case OtherDrape => OtherStep(xs, t, s, k);
      case Listed(d) => ListedStep(xs, t, s, k, d);
    }
  }

  lemma PrefixStep(items: seq<Surgery>, i: int, t: Tally)
    requires 0 <= i < |items| && TallyOf(items[..i], t)
    ensures AddCase(t, items[i]).None? <==> Breaks(items[i])
    ensures AddCase(t, items[i]).Some? ==> TallyOf(items[..i + 1], AddCase(t, items[i]).value)
  {
    AddCaseStep(items[..i], t, items[i]);
    assert items[..i + 1] == items[..i] + [items[i]];
  }

  /** `DrapeCountView`'s `useMemo`: the tally of the cases, or `None` when
      one of them has a truthy room outside the catalog and a drape to
      record. */
  method TallyDrapes(items: seq<Surgery>) returns (r: Option<Tally>)
    ensures r.None? <==> exists i :: 0 <= i < |items| && Breaks(items[i])
    ensures r.Some? ==> TallyOf(items, r.value)
  {
    var t := EmptyTally();
    var i := 0;
    while i < |items|
      invariant 0 <= i <= |items|
      invariant TallyOf(items[..i], t)
      invariant forall j :: 0 <= j < i ==> !Breaks(items[j])
    {
      var next := AddCase(t, items[i]);
      PrefixStep(items, i, t);
      if next.None? {
        return None;
      }
      t := next.value;
      i := i + 1;
    }
    assert items[..i] == items;
    return Some(t);
  }

  // ---------------------------------------------------------------------
  // Properties of the screen
  // ---------------------------------------------------------------------

  /** When no case breaks the tally, the totals row is the sum of the room
      rows: the total of each type is the sum of the rooms' counts of it,
      and the "other" total is the sum of the lengths of the rooms' lists. */
  lemma TotalsAreRoomSums(items: seq<Surgery>, t: Tally, d: DrapeType)
    requires TallyOf(items, t)
    requires forall i :: 0 <= i < |items| ==> !Breaks(items[i])
    ensures t.totals.Get(d) == SumCounts(t.rooms, d, RoomCount)
    ensures t.othersCount == SumOthers(t.rooms, RoomCount)
  {
    RoomCountsSum(items, t, d, RoomCount);
    RoomOthersSum(items, t, RoomCount);
    CountSamePredicate(items, ListedUpTo(RoomCount, d), ListedAnywhere(d));
    CountSamePredicate(items, OtherUpTo(RoomCount), OtherAnywhere());
  }

  /** The counts of `d` in the first `n` room records, added up. */
  function SumCounts(rooms: seq<RoomTally>, d: DrapeType, n: nat): nat
    requires n <= |rooms|
  {
    if n == 0 then 0 else SumCounts(rooms, d, n - 1) + rooms[n - 1].counts.Get(d)
  }

  /** The lengths of the first `n` rooms' "other" lists, added up. */
  function SumOthers(rooms: seq<RoomTally>, n: nat): nat
    requires n <= |rooms|
  {
    if n == 0 then 0 else SumOthers(rooms, n - 1) + |rooms[n - 1].others|
  }

  /** A case counted for `d` in one of the rooms `1..n`. */
  function ListedUpTo(n: int, d: DrapeType): Surgery -> bool {
    (s: Surgery) => HasRoom(s) && s.drapeType == Some(Listed(d)) && 1 <= s.roomId.value <= n
  }

  /** A case whose "other" text is listed under one of the rooms `1..n`. */
  function OtherUpTo(n: int): Surgery -> bool {
    (s: Surgery) => HasRoom(s) && s.drapeType == Some(OtherDrape) && s.drapeOther != "" && 1 <= s.roomId.value <= n
  }

  lemma {:induction false} RoomCountsSum(items: seq<Surgery>, t: Tally, d: DrapeType, n: nat)
    requires TallyOf(items, t) && n <= RoomCount
    ensures SumCounts(t.rooms, d, n) == Count(items, ListedUpTo(n, d))
  {
    if n == 0 {
      CountNone(items, ListedUpTo(0, d));
    } else {
      RoomCountsSum(items, t, d, n - 1);
      forall s: Surgery
        ensures ListedUpTo(n, d)(s) == (ListedUpTo(n - 1, d)(s) || ListedIn(n, d)(s))
        ensures !(ListedUpTo(n - 1, d)(s) && ListedIn(n, d)(s))
      {
      }
      CountSplit(items, ListedUpTo(n, d), ListedUpTo(n - 1, d), ListedIn(n, d));
    }
  }

  lemma {:induction false} RoomOthersSum(items: seq<Surgery>, t: Tally, n: nat)
    requires TallyOf(items, t) && n <= RoomCount
    ensures SumOthers(t.rooms, n) == Count(items, OtherUpTo(n))
  {
    if n == 0 {
      CountNone(items, OtherUpTo(0));
    } else {
      RoomOthersSum(items, t, n - 1);
      forall s: Surgery
        ensures OtherUpTo(n)(s) == (OtherUpTo(n - 1)(s) || OtherIn(n)(s))
        ensures !(OtherUpTo(n - 1)(s) && OtherIn(n)(s))
      {
      }
      CountSplit(items, OtherUpTo(n), OtherUpTo(n - 1), OtherIn(n));
    }
  }

  lemma {:induction false} CountNone(xs: seq<Surgery>, p: Surgery -> bool)
    requires forall s :: !p(s)
    ensures Count(xs, p) == 0
  {
    if xs != [] {
      CountNone(xs[1..], p);
    }
  }

  /** Counting by `p`, where `p` holds exactly when one of the exclusive
      `q` and `r` does, adds the two counts. */
  lemma {:induction false} CountSplit(xs: seq<Surgery>, p: Surgery -> bool, q: Surgery -> bool, r: Surgery -> bool)
    requires forall s :: p(s) == (q(s) || r(s)) && !(q(s) && r(s))
    ensures Count(xs, p) == Count(xs, q) + Count(xs, r)
  {
    if xs != [] {
      CountSplit(xs[1..], p, q, r);
    }
  }

  lemma {:induction false} CountSamePredicate(xs: seq<Surgery>, p: Surgery -> bool, q: Surgery -> bool)
    requires forall i :: 0 <= i < |xs| ==> p(xs[i]) == q(xs[i])
    ensures Count(xs, p) == Count(xs, q)
  {
    if xs != [] {
      CountSamePredicate(xs[1..], p, q);
    }
  }
}
