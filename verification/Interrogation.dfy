/** Interrogation commands: which points are asked for, and the frames that answer. */
module Interrogation {
  import opened Machine
  import opened Protocol
  import opened Points
  import opened ProcessImage
  import opened ExchangeTable
  import opened GiGroups
  import Packing
  import Terms

  type Connection = nat

  /** A frame of an answer. The library's ACT-CON and ACT-TERM mirror the command's object. */
  datatype Frame =
    | ActCon(con: Connection, ca: int, qoi: int, negative: bool)
    | Data(con: Connection, ca: int, oa: int, cot: int, objects: seq<InfoObject>)
    | ActTerm(con: Connection, ca: int, qoi: int)

  // ---------------------------------------------------------------- ascending keys

  lemma AnElement<T>(s: set<T>) returns (x: T)
    requires s != {}
    ensures x in s
  {
    x :| x in s;
  }

  lemma HasLeast(s: set<int>) returns (m: int)
    requires s != {}
    ensures m in s && forall x :: x in s ==> m <= x
  {
    m := AnElement(s);
    if s != {m} {
      var others := s - {m};
      var m' := HasLeast(others);
      forall x | x in s
        ensures m <= x || m' <= x
      {
        assert x == m || x in others;
      }
      if m' < m {
        m := m';
      }
    }
  }

  function Least(s: set<int>): (m: int)
    requires s != {}
    ensures m in s && forall x :: x in s ==> m <= x
  {
    assert exists m :: m in s && forall x :: x in s ==> m <= x by {
      var m := HasLeast(s);
    }
    var m :| m in s && forall x :: x in s ==> m <= x;
    m
  }

  /** The order in which a `std::map` is iterated. */
  function Ascending(s: set<int>): (keys: seq<int>)
    ensures forall x :: x in keys <==> x in s
    ensures forall i, j :: 0 <= i < j < |keys| ==> keys[i] < keys[j]
  {
    if s == {} then []
    else
      var m := Least(s);
      var rest := Ascending(s - {m});
      assert forall x :: x in s <==> x == m || x in s - {m};
      [m] + rest
  }

  // ---------------------------------------------------------------- specification

  /** Whether a cell is answered for: a point, of a monitoring type, in the group. */
  predicate IsAnswered(cell: Option<Point>, qoi: int)
    requires QOI_STATION <= qoi
  {
    cell.Some? && !cell.value.isCommand && IsAsked(cell.value.giGroups, qoi)
  }

  /** The encoded objects of some cells of a row, in the order of the keys. */
  function ObjectsOf(row: map<int, Option<Point>>, keys: seq<int>, qoi: int): seq<InfoObject>
    requires QOI_STATION <= qoi && forall k :: k in keys ==> k in row
  {
    if keys == [] then []
    else
      var k := keys[|keys| - 1];
      assert k in keys && k in row;
      ObjectsOf(row, keys[..|keys| - 1], qoi) + CellObjects(row[k], qoi)
  }

  /** What one cell contributes: its object, or nothing. */
  function CellObjects(cell: Option<Point>, qoi: int): seq<InfoObject>
    requires QOI_STATION <= qoi
  {
    if !IsAnswered(cell, qoi) then []
    else
      var io := EncodeInterrogation(cell.value);
      if io.Some? then [io.value] else []
  }

  function RowObjects(row: map<int, Option<Point>>, qoi: int): seq<InfoObject>
    requires QOI_STATION <= qoi
  {
    ObjectsOf(row, Ascending(row.Keys), qoi)
  }

  function DataFrames(con: Connection, ca: int, oa: int, messages: seq<seq<InfoObject>>): seq<Frame> {
    if messages == [] then []
    else DataFrames(con, ca, oa, messages[..|messages| - 1])
         + [Data(con, ca, oa, COT_INTERROGATED_BY_STATION, messages[|messages| - 1])]
  }

  /** The answer for one common address. */
  function Response(l: Packing.Limits, con: Connection, row: map<int, Option<Point>>, ca: int, oa: int,
                    qoi: int): seq<Frame>
    requires QOI_STATION <= qoi
  {
    [ActCon(con, ca, qoi, false)]
    + DataFrames(con, ca, oa, Packing.Messages(l, RowObjects(row, qoi)))
    + [ActTerm(con, ca, qoi)]
  }

  /** The answers for a list of common addresses, one after the other. */
  function Responses(l: Packing.Limits, con: Connection, image: Image, cas: seq<int>, oa: int, qoi: int): seq<Frame>
    requires QOI_STATION <= qoi && forall ca :: ca in cas ==> ca in image
  {
    if cas == [] then []
    else
      var ca := cas[|cas| - 1];
      assert ca in cas && ca in image;
      Responses(l, con, image, cas[..|cas| - 1], oa, qoi) + Response(l, con, image[ca], ca, oa, qoi)
  }

  predicate IsBroadcast(l: Packing.Limits, ca: int) {
    (l.caSize == 1 && ca == 0xff) || (l.caSize == 2 && ca == 0xffff)
  }

  lemma BroadcastByNumber(l: Packing.Limits, ca: int)
    ensures IsBroadcast(l, ca) <==> Terms.NamesAll(l.caSize, ca)
  {
  }

  /** All frames that answer an interrogation command. */
  function Answer(l: Packing.Limits, con: Connection, image: Image, ca: int, oa: int, qoi: int): seq<Frame> {
    if qoi < QOI_STATION || qoi > QOI_GROUP_16 then [ActCon(con, ca, qoi, true)]
    else if IsBroadcast(l, ca) then Responses(l, con, image, Ascending(image.Keys), oa, qoi)
    else if ca !in image then [ActCon(con, ca, qoi, true)]
    else Response(l, con, image[ca], ca, oa, qoi)
  }

  // ---------------------------------------------------------------- the handlers

  lemma NextCell(row: map<int, Option<Point>>, keys: seq<int>, i: nat, qoi: int)
    requires QOI_STATION <= qoi && i < |keys| && forall k :: k in keys ==> k in row
    ensures ObjectsOf(row, keys[..i + 1], qoi) == ObjectsOf(row, keys[..i], qoi) + CellObjects(row[keys[i]], qoi)
  {
    assert keys[..i + 1][..i] == keys[..i];
  }

  lemma NextMessage(con: Connection, ca: int, oa: int, messages: seq<seq<InfoObject>>, m: seq<InfoObject>)
    ensures DataFrames(con, ca, oa, messages + [m])
         == DataFrames(con, ca, oa, messages) + [Data(con, ca, oa, COT_INTERROGATED_BY_STATION, m)]
  {
    assert (messages + [m])[..|messages|] == messages;
  }

  /** What was sent and what is kept back once these objects were offered to the packer. */
  ghost predicate Offered(l: Packing.Limits, con: Connection, ca: int, oa: int, qoi: int, objects: seq<InfoObject>,
                          frames: seq<Frame>, newAsdu: seq<InfoObject>)
  {
    && newAsdu == Packing.Pack(l, objects).open
    && frames == [ActCon(con, ca, qoi, false)] + DataFrames(con, ca, oa, Packing.Pack(l, objects).sent)
  }

  /** One more object: added, or else what was kept back is sent and the object tried once more. */
  lemma OfferNext(l: Packing.Limits, con: Connection, ca: int, oa: int, qoi: int, objects: seq<InfoObject>,
                  frames: seq<Frame>, newAsdu: seq<InfoObject>, io: InfoObject)
    requires Offered(l, con, ca, oa, qoi, objects, frames, newAsdu)
    ensures if Packing.CanAdd(l, newAsdu, io) then Offered(l, con, ca, oa, qoi, objects + [io], frames, newAsdu + [io])
            else Offered(l, con, ca, oa, qoi, objects + [io],
                         frames + [Data(con, ca, oa, COT_INTERROGATED_BY_STATION, newAsdu)],
                         if Packing.Fits(l, io) then [io] else [])
  {
    hide Packing.CanAdd, Packing.Fits, Packing.Pack, DataFrames;
    Packing.PackNext(l, objects, io);
    NextMessage(con, ca, oa, Packing.Pack(l, objects).sent, newAsdu);
  }

  /** The end: what was kept back, if anything, and the ACT-TERM. */
  lemma OfferEnds(l: Packing.Limits, con: Connection, row: map<int, Option<Point>>, ca: int, oa: int, qoi: int,
                  frames: seq<Frame>, newAsdu: seq<InfoObject>)
    requires QOI_STATION <= qoi && Offered(l, con, ca, oa, qoi, RowObjects(row, qoi), frames, newAsdu)
    ensures Response(l, con, row, ca, oa, qoi)
         == (if newAsdu == [] then frames else frames + [Data(con, ca, oa, COT_INTERROGATED_BY_STATION, newAsdu)])
            + [ActTerm(con, ca, qoi)]
  {
    hide Packing.Pack, DataFrames, RowObjects;
    NextMessage(con, ca, oa, Packing.Pack(l, RowObjects(row, qoi)).sent, newAsdu);
  }

  /** `sendInterrogationResponse`: the packing loop with its accumulator. Both callers know that the
      row exists, so its lookup inserts nothing. */
  method SendInterrogationResponse(table: PointTable, l: Packing.Limits, con: Connection, ca: int, oa: int, qoi: int)
    returns (frames: seq<Frame>)
    requires table.Valid() && ca in table.rows && QOI_STATION <= qoi
    ensures frames == Response(l, con, table.Abs()[ca], ca, oa, qoi)
  {
    hide Offered, EncodeInterrogation, IsAsked, ObjectsOf, Ascending, Response, Packing.CanAdd, Packing.Fits,
         PointTable.Shows, PointTable.Valid, PointTable.Abs, PointTable.Cells;
    var ld := table.rows[ca];
    var keys := Ascending(ld.Keys);
    ghost var row := table.Abs()[ca];
    frames := [ActCon(con, ca, qoi, false)];
    var newAsdu: seq<InfoObject> := [];
    NothingYet(l, con, row, ca, oa, qoi);
    var i := 0;
    assert keys[..i] == [];
    while i < |keys|
      invariant 0 <= i <= |keys|
      invariant Offered(l, con, ca, oa, qoi, ObjectsOf(row, keys[..i], qoi), frames, newAsdu)
    {
      var dp := ld[keys[i]];
      NextCell(row, keys, i, qoi);
      assert row[keys[i]] == PointTable.CellView(dp);
      ghost var objects := ObjectsOf(row, keys[..i], qoi);
      assert objects + [] == objects;
      if dp != null && !dp.isCommand && IsAsked(dp.giGroups, qoi) {
        var io := EncodeInterrogation(dp.View());
        if io.Some? {
          OfferNext(l, con, ca, oa, qoi, objects, frames, newAsdu, io.value);
          if Packing.CanAdd(l, newAsdu, io.value) {
            newAsdu := newAsdu + [io.value];
          } else {
            frames := frames + [Data(con, ca, oa, COT_INTERROGATED_BY_STATION, newAsdu)];
            newAsdu := if Packing.Fits(l, io.value) then [io.value] else [];
          }
        }
      }
      i := i + 1;
    }
    assert keys[..i] == keys;
    assert RowObjects(row, qoi) == ObjectsOf(row, keys, qoi);
    OfferEnds(l, con, row, ca, oa, qoi, frames, newAsdu);
    if |newAsdu| > 0 {
      frames := frames + [Data(con, ca, oa, COT_INTERROGATED_BY_STATION, newAsdu)];
    }
    frames := frames + [ActTerm(con, ca, qoi)];
    assert frames == Response(l, con, row, ca, oa, qoi);
    assert table.Abs()[ca] == row;
  }

  lemma NothingYet(l: Packing.Limits, con: Connection, row: map<int, Option<Point>>, ca: int, oa: int, qoi: int)
    requires QOI_STATION <= qoi
    ensures Offered(l, con, ca, oa, qoi, ObjectsOf(row, [], qoi), [ActCon(con, ca, qoi, false)], [])
  {
  }

  lemma NextAddress(l: Packing.Limits, con: Connection, image: Image, cas: seq<int>, i: nat, oa: int, qoi: int)
    requires QOI_STATION <= qoi && i < |cas| && forall ca :: ca in cas ==> ca in image
    ensures Responses(l, con, image, cas[..i + 1], oa, qoi)
         == Responses(l, con, image, cas[..i], oa, qoi) + Response(l, con, image[cas[i]], cas[i], oa, qoi)
  {
    assert cas[..i + 1][..i] == cas[..i];
  }

  /** `interrogationHandler`: range check, broadcast over every row, unknown or known address. */
  method InterrogationHandler(table: PointTable, l: Packing.Limits, con: Connection, ca: int, oa: int, qoi: int)
    returns (frames: seq<Frame>)
    requires table.Valid()
    ensures frames == Answer(l, con, table.Abs(), ca, oa, qoi)
  {
    hide Response, Responses, Ascending;
    ghost var image := table.Abs();
    if qoi < QOI_STATION || qoi > QOI_GROUP_16 {
      return [ActCon(con, ca, qoi, true)];
    }
    if IsBroadcast(l, ca) {
      var cas := Ascending(table.rows.Keys);
      frames := [];
      NoAddresses(l, con, image, oa, qoi);
      var i := 0;
      assert cas[..i] == [];
      while i < |cas|
        invariant 0 <= i <= |cas|
        invariant frames == Responses(l, con, image, cas[..i], oa, qoi)
      {
        NextAddress(l, con, image, cas, i, oa, qoi);
        var response := SendInterrogationResponse(table, l, con, cas[i], oa, qoi);
        assert table.Shows(image);
        table.ShowsOnlyAbs(image);
        frames := frames + response;
        i := i + 1;
      }
      assert cas[..i] == cas;
    } else if ca !in table.rows {
      return [ActCon(con, ca, qoi, true)];
    } else {
      frames := SendInterrogationResponse(table, l, con, ca, oa, qoi);
    }
    assert table.Shows(image);
    table.ShowsOnlyAbs(image);
  }

  lemma NoAddresses(l: Packing.Limits, con: Connection, image: Image, oa: int, qoi: int)
    requires QOI_STATION <= qoi
    ensures Responses(l, con, image, [], oa, qoi) == []
  {
  }
}
