/** Building the table of points from the exchanged data of the configuration. */
module ExchangeImport {
  import opened Machine
  import opened Protocol
  import opened Points
  import opened ProcessImage
  import opened ExchangeTable
  import GiGroups

  /** The `gi_groups` member of a protocol entry. */
  datatype GroupSetting = NoSetting | NotText | GroupText(text: string)

  /** An address "CA-IOA" with both numbers read, or one the import cannot read. */
  datatype Address = Malformed | Address(ca: int, ioa: int)

  /** One entry of a data point's protocol list. `Broken` stands for an entry that lacks a member or
      has one of the wrong kind; `Foreign` for one of another protocol. */
  datatype Entry = Broken | Foreign | Entry(groups: GroupSetting, address: Address, typeId: int)

  /** What the import does after an entry: go on, leave this data point, or give up altogether. */
  datatype Verdict = Next | SkipRest | GiveUp

  /** The mask of an entry; `None` if reading it ends the import. */
  function EntryMask(groups: GroupSetting): Option<nat> {
    match groups
    case NoSetting => Some(GiGroups.STATION_MASK)
    case NotText => Some(GiGroups.STATION_MASK)
    case GroupText(text) => GiGroups.MaskOf(text)
  }

  function VerdictOf(e: Entry): Verdict {
    match e
    case Broken => GiveUp
    case Foreign => Next
    case Entry(groups, address, _) =>
      if groups.NotText? then SkipRest
      else if EntryMask(groups).None? || address.Malformed? then GiveUp
      else Next
  }

  /** The point an entry defines, if it defines one. */
  function PointOf(e: Entry): Option<Point> {
    if e.Entry? && VerdictOf(e).Next?
       && (IsSupportedCommandType(e.typeId) || IsSupportedMonitoringType(e.typeId)) then
      var dataType := TypeIdToDataType(e.typeId);
      Some(Point(e.address.ca, e.address.ioa, dataType, IsSupportedCommandType(e.typeId),
                 EntryMask(e.groups).value, InitialContent(dataType), None))
    else None
  }

  /** The points of one data point's entries, in order, and whether the import goes on after it. */
  function EntriesPoints(es: seq<Entry>): (seq<Point>, bool) {
    if es == [] then ([], true)
    else
      match VerdictOf(es[0])
      case GiveUp => ([], false)
      case SkipRest => ([], true)
      case Next =>
        var (rest, goesOn) := EntriesPoints(es[1..]);
        ((if PointOf(es[0]).Some? then [PointOf(es[0]).value] else []) + rest, goesOn)
  }

  /** All points the import defines, in order. */
  function Defined(datapoints: seq<seq<Entry>>): seq<Point> {
    if datapoints == [] then []
    else
      var (points, goesOn) := EntriesPoints(datapoints[0]);
      if goesOn then points + Defined(datapoints[1..]) else points
  }

  function StoreAll(image: Image, points: seq<Point>): Image
    decreases points
  {
    if points == [] then image
    else
      var p := points[0];
      StoreAll(Stored(TouchRow(image, p.ca), p.ca, p.ioa, p), points[1..])
  }

  /** The table after the import. */
  function Imported(datapoints: seq<seq<Entry>>): Image {
    StoreAll(map[], Defined(datapoints))
  }

  // ---------------------------------------------------------------- what the table is like

  /** Position of the last point with these addresses, -1 if there is none. */
  function LastAt(points: seq<Point>, ca: int, ioa: int): (k: int)
    ensures -1 <= k < |points|
    ensures k >= 0 ==> points[k].ca == ca && points[k].ioa == ioa
    ensures forall j :: k < j < |points| ==> !(points[j].ca == ca && points[j].ioa == ioa)
  {
    if points == [] then -1
    else if points[|points| - 1].ca == ca && points[|points| - 1].ioa == ioa then |points| - 1
    else LastAt(points[..|points| - 1], ca, ioa)
  }

  /** A table without null cells and empty rows. */
  ghost predicate HasNoHoles(image: Image) {
    forall ca :: ca in image ==> image[ca] != map[] && forall ioa :: ioa in image[ca] ==> image[ca][ioa].Some?
  }

  /** Storing one point: it is in its cell, the other cells are as before, and no hole is made. */
  lemma StoredAt(image: Image, p: Point, ca: int, ioa: int)
    ensures var image' := Stored(TouchRow(image, p.ca), p.ca, p.ioa, p);
            && PointAt(image', ca, ioa) == (if ca == p.ca && ioa == p.ioa then Some(p) else PointAt(image, ca, ioa))
            && (HasNoHoles(image) ==> HasNoHoles(image'))
  {
    var image' := Stored(TouchRow(image, p.ca), p.ca, p.ioa, p);
    if HasNoHoles(image) {
      assert p.ioa in image'[p.ca];
    }
  }

  lemma LastOfTail(points: seq<Point>, ca: int, ioa: int)
    requires points != []
    ensures var k, k' := LastAt(points, ca, ioa), LastAt(points[1..], ca, ioa);
            if k' >= 0 then k >= 0 && points[k] == points[1..][k']
            else k == if points[0].ca == ca && points[0].ioa == ioa then 0 else -1
  {
    var k' := LastAt(points[1..], ca, ioa);
    assert k' >= 0 ==> points[k' + 1] == points[1..][k'];
    assert forall j :: 0 <= j < |points| - 1 ==> points[1..][j] == points[j + 1];
  }

  lemma {:induction false} StoreAllIsLast(image: Image, points: seq<Point>, ca: int, ioa: int)
    ensures var k := LastAt(points, ca, ioa);
            PointAt(StoreAll(image, points), ca, ioa) == if k >= 0 then Some(points[k]) else PointAt(image, ca, ioa)
    ensures HasNoHoles(image) ==> HasNoHoles(StoreAll(image, points))
    decreases points
  {
    hide Stored, HasNoHoles, PointAt, LastAt;
    if points == [] {
    } else {
      var p := points[0];
      StoreAllIsLast(Stored(TouchRow(image, p.ca), p.ca, p.ioa, p), points[1..], ca, ioa);
      StoredAt(image, p, ca, ioa);
      LastOfTail(points, ca, ioa);
    }
  }

  lemma {:induction false} EntriesAreInitial(es: seq<Entry>)
    ensures forall p :: p in EntriesPoints(es).0 ==> IsInitial(p)
  {
    if es != [] {
      EntriesAreInitial(es[1..]);
      if PointOf(es[0]).Some? {
        DefinesInitial(es[0]);
      }
    }
  }

  predicate IsInitial(p: Point) {
    WellTyped(p) && p.content == InitialContent(p.dataType)
  }

  lemma DefinesInitial(e: Entry)
    requires PointOf(e).Some?
    ensures IsInitial(PointOf(e).value)
  {
  }

  lemma {:induction false} DefinedAreInitial(datapoints: seq<seq<Entry>>)
    ensures forall p :: p in Defined(datapoints) ==> IsInitial(p)
  {
    if datapoints != [] {
      EntriesAreInitial(datapoints[0]);
      DefinedAreInitial(datapoints[1..]);
    }
  }

  /** The imported table: each cell holds the last point defined for its addresses and nothing else,
      no cell is null and no row empty, every union holds the member of its point's type, and every
      content is initial. */
  lemma ImportedTable(datapoints: seq<seq<Entry>>)
    ensures Pristine(Imported(datapoints)) && WellFormed(Imported(datapoints)) && HasNoHoles(Imported(datapoints))
    ensures forall ca, ioa ::
              var points, k := Defined(datapoints), LastAt(Defined(datapoints), ca, ioa);
              PointAt(Imported(datapoints), ca, ioa) == if k >= 0 then Some(points[k]) else None
  {
    hide Defined, EntriesPoints, StoreAll, WellTyped;
    var points := Defined(datapoints);
    DefinedAreInitial(datapoints);
    assert HasNoHoles(map[]);
    StoreAllIsLast(map[], points, 0, 0);
    forall ca, ioa
      ensures var k := LastAt(points, ca, ioa);
              PointAt(Imported(datapoints), ca, ioa) == if k >= 0 then Some(points[k]) else None
    {
      StoreAllIsLast(map[], points, ca, ioa);
    }
    forall ca, ioa | PointAt(Imported(datapoints), ca, ioa).Some?
      ensures IsAt(PointAt(Imported(datapoints), ca, ioa).value, ca, ioa)
      ensures IsInitial(PointAt(Imported(datapoints), ca, ioa).value)
    {
      var k := LastAt(points, ca, ioa);
      assert points[k] in points;
    }
  }

  // ---------------------------------------------------------------- the import loops

  lemma StoreAllAppend(image: Image, a: seq<Point>, b: seq<Point>)
    ensures StoreAll(image, a + b) == StoreAll(StoreAll(image, a), b)
    decreases a
  {
    if a == [] {
      assert a + b == b;
    } else {
      var p := a[0];
      assert (a + b)[1..] == a[1..] + b;
      StoreAllAppend(Stored(TouchRow(image, p.ca), p.ca, p.ioa, p), a[1..], b);
    }
  }

  /** The body of the loop over the entries of one data point. */
  method ImportEntry(table: PointTable, e: Entry) returns (verdict: Verdict)
    requires table.Valid()
    modifies table`rows
    ensures table.Valid() && forall c :: c in table.Cells() ==> c in old(table.Cells()) || fresh(c)
    ensures verdict == VerdictOf(e)
    ensures table.Abs() == StoreAll(old(table.Abs()), if PointOf(e).Some? then [PointOf(e).value] else [])
  {
    hide GiGroups.MaskOf;
    ghost var image := table.Abs();
    if e.Broken? {
      return GiveUp;
    }
    if e.Entry? {
      var mask := Some(GiGroups.STATION_MASK);
      if e.groups.GroupText? {
        mask := GiGroups.ImportGroups(e.groups.text);
      } else if e.groups.NotText? {
        return SkipRest;
      }
      assert table.Shows(image);
      table.ShowsOnlyAbs(image);
      if mask.None? || e.address.Malformed? {
        return GiveUp;
      }
      var dataType := TypeIdToDataType(e.typeId);
      var isCommand := IsSupportedCommandType(e.typeId);
      if isCommand || IsSupportedMonitoringType(e.typeId) {
        var dp := new DataPoint(e.address.ca, e.address.ioa, dataType, isCommand, mask.value);
        assert table.Shows(image);
        table.ShowsOnlyAbs(image);
        table.Put(dp);
        assert StoreAll(image, [dp.View()]) == Stored(TouchRow(image, dp.ca), dp.ca, dp.ioa, dp.View());
      }
    }
    return Next;
  }

  /** One data point: the loop over its entries. */
  method ImportEntries(table: PointTable, es: seq<Entry>) returns (goesOn: bool)
    requires table.Valid()
    modifies table`rows
    ensures table.Valid() && forall c :: c in table.Cells() ==> c in old(table.Cells()) || fresh(c)
    ensures table.Abs() == StoreAll(old(table.Abs()), EntriesPoints(es).0)
    ensures goesOn == EntriesPoints(es).1
  {
    hide VerdictOf, PointOf, StoreAll;
    ghost var stored: seq<Point> := [];
    NothingStored(table.Abs());
    var i := 0;
    assert es[0..] == es;
    while i < |es|
      invariant 0 <= i <= |es|
      invariant table.Valid() && forall c :: c in table.Cells() ==> c in old(table.Cells()) || fresh(c)
      invariant table.Abs() == StoreAll(old(table.Abs()), stored)
      invariant EntriesPoints(es).0 == stored + EntriesPoints(es[i..]).0
      invariant EntriesPoints(es).1 == EntriesPoints(es[i..]).1
    {
      assert es[i..][0] == es[i] && es[i..][1..] == es[i + 1..];
      var verdict := ImportEntry(table, es[i]);
      ghost var points := if PointOf(es[i]).Some? then [PointOf(es[i]).value] else [];
      StoreAllAppend(old(table.Abs()), stored, points);
      stored := stored + points;
      match verdict {
        case GiveUp =>
          NoPointUnlessNext(es[i]);
          return false;
        case SkipRest =>
          NoPointUnlessNext(es[i]);
          return true;
        case Next =>
      }
      assert stored + EntriesPoints(es[i + 1..]).0 == EntriesPoints(es).0;
      i := i + 1;
    }
    assert EntriesPoints(es[i..]) == ([], true);
    assert stored == EntriesPoints(es).0;
    return true;
  }

  lemma NothingStored(image: Image)
    ensures StoreAll(image, []) == image
  {
  }

  lemma NoPointUnlessNext(e: Entry)
    ensures !VerdictOf(e).Next? ==> PointOf(e).None?
  {
  }

  /** `importExchangeConfig`: the loop over the data points. */
  method ImportExchangeConfig(datapoints: seq<seq<Entry>>) returns (table: PointTable)
    ensures table.Valid() && fresh(table) && fresh(table.Cells()) && table.sent == []
    ensures table.Abs() == Imported(datapoints)
  {
    hide StoreAll, EntriesPoints;
    table := new PointTable(map[]);
    ghost var stored: seq<Point> := [];
    NothingStored(map[]);
    assert table.Shows(map[]);
    table.ShowsOnlyAbs(map[]);
    var i := 0;
    assert datapoints[0..] == datapoints;
    while i < |datapoints|
      invariant 0 <= i <= |datapoints|
      invariant table.Valid() && fresh(table) && fresh(table.Cells()) && table.sent == []
      invariant table.Abs() == StoreAll(map[], stored)
      invariant Defined(datapoints) == stored + Defined(datapoints[i..])
    {
      assert datapoints[i..][1..] == datapoints[i + 1..];
      var goesOn := ImportEntries(table, datapoints[i]);
      StoreAllAppend(map[], stored, EntriesPoints(datapoints[i]).0);
      stored := stored + EntriesPoints(datapoints[i]).0;
      if !goesOn {
        return;
      }
      i := i + 1;
    }
    assert stored == Defined(datapoints);
  }
}
