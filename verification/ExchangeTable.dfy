/** The server's table of data points: maps of maps of pointers, grown by its lookups, with the
    point objects updated in place. */
module ExchangeTable {
  import opened Machine
  import opened Protocol
  import opened Points
  import opened ProcessImage

  /** Whether a pointer is in a cell of a table. */
  ghost predicate InCell(rows: map<int, map<int, DataPoint?>>, ca: int, ioa: int, dp: DataPoint) {
    ca in rows && ioa in rows[ca] && rows[ca][ioa] == dp
  }

  /** The point objects of a table. */
  ghost function Objects(rows: map<int, map<int, DataPoint?>>): set<DataPoint> {
    set ca, ioa | ca in rows && ioa in rows[ca] && rows[ca][ioa] != null :: rows[ca][ioa]
  }

  lemma SameObjects(a: map<int, map<int, DataPoint?>>, b: map<int, map<int, DataPoint?>>)
    requires forall ca, ioa, dp :: InCell(a, ca, ioa, dp) <==> InCell(b, ca, ioa, dp)
    ensures Objects(a) == Objects(b)
  {
    forall dp | dp in Objects(a)
      ensures dp in Objects(b)
    {
      var ca, ioa :| ca in a && ioa in a[ca] && a[ca][ioa] != null && a[ca][ioa] == dp;
      assert InCell(a, ca, ioa, dp) && InCell(b, ca, ioa, dp);
    }
    forall dp | dp in Objects(b)
      ensures dp in Objects(a)
    {
      var ca, ioa :| ca in b && ioa in b[ca] && b[ca][ioa] != null && b[ca][ioa] == dp;
      assert InCell(b, ca, ioa, dp) && InCell(a, ca, ioa, dp);
    }
  }

  lemma InCellIsObject(rows: map<int, map<int, DataPoint?>>, ca: int, ioa: int, dp: DataPoint)
    requires InCell(rows, ca, ioa, dp)
    ensures dp in Objects(rows)
  {
  }

  lemma ObjectIsInCell(rows: map<int, map<int, DataPoint?>>, dp: DataPoint)
    requires dp in Objects(rows)
    ensures exists ca, ioa :: InCell(rows, ca, ioa, dp)
  {
    var ca, ioa :| ca in rows && ioa in rows[ca] && rows[ca][ioa] != null && rows[ca][ioa] == dp;
    assert InCell(rows, ca, ioa, dp);
  }

  lemma ObjectsAfterPut(rows: map<int, map<int, DataPoint?>>, dp: DataPoint)
    requires dp.ca in rows
    ensures Objects(rows[dp.ca := rows[dp.ca][dp.ioa := dp]]) <= Objects(rows) + {dp}
  {
    hide Objects;
    var rows' := rows[dp.ca := rows[dp.ca][dp.ioa := dp]];
    forall c | c in Objects(rows')
      ensures c in Objects(rows) + {dp}
    {
      ObjectIsInCell(rows', c);
      var ca, ioa :| InCell(rows', ca, ioa, c);
      if c != dp {
        assert InCell(rows, ca, ioa, c);
        InCellIsObject(rows, ca, ioa, c);
      }
    }
  }

  lemma InsertedNullHasNoObject(rows: map<int, map<int, DataPoint?>>, ca: int, ioa: int)
    requires ca in rows && ioa !in rows[ca]
    ensures Objects(rows[ca := rows[ca][ioa := null]]) == Objects(rows)
  {
    hide Objects;
    SameObjects(rows[ca := rows[ca][ioa := null]], rows);
  }

  class PointTable {
    var rows: map<int, map<int, DataPoint?>>
    ghost var sent: seq<Message>

    /** A point object sits in the cell of its own addresses, so no object is in two cells. */
    ghost predicate Valid()
      reads `rows
    {
      forall ca, ioa :: ca in rows && ioa in rows[ca] && rows[ca][ioa] != null ==>
        rows[ca][ioa].ca == ca && rows[ca][ioa].ioa == ioa
    }

    ghost function Cells(): set<DataPoint>
      reads `rows
    {
      Objects(rows)
    }

    /** A cell as a value. */
    static function CellView(dp: DataPoint?): Option<Point>
      reads dp
    {
      if dp == null then None else Some(dp.View())
    }

    /** The table as a value. */
    ghost function Abs(): (image: Image)
      reads `rows, Cells()
      ensures image.Keys == rows.Keys
      ensures forall ca :: ca in rows ==> image[ca].Keys == rows[ca].Keys
      ensures forall ca, ioa :: ca in rows && ioa in rows[ca] ==> image[ca][ioa] == CellView(rows[ca][ioa])
    {
      map ca | ca in rows :: map ioa | ioa in rows[ca] :: CellView(rows[ca][ioa])
    }

    /** Cell by cell, the table shows this value. */
    ghost predicate Shows(image: Image)
      reads `rows, Cells()
    {
      && image.Keys == rows.Keys
      && forall ca :: ca in rows ==>
           && image[ca].Keys == rows[ca].Keys
           && forall ioa :: ioa in rows[ca] ==> image[ca][ioa] == CellView(rows[ca][ioa])
    }

    lemma ShowsOnlyAbs(image: Image)
      requires Shows(image)
      ensures Abs() == image
    {
      forall ca | ca in rows
        ensures Abs()[ca] == image[ca]
      {
        assert Abs()[ca].Keys == image[ca].Keys;
        forall ioa | ioa in rows[ca]
          ensures Abs()[ca][ioa] == image[ca][ioa]
        {
        }
      }
    }

    /** What is not written stays. */
    twostate lemma Stays()
      requires unchanged(`rows, old(Cells()))
      ensures Abs() == old(Abs()) && Cells() == old(Cells()) && Valid() == old(Valid())
    {
    }

    constructor (rows: map<int, map<int, DataPoint?>>)
      requires forall ca, ioa :: ca in rows && ioa in rows[ca] && rows[ca][ioa] != null ==>
                 rows[ca][ioa].ca == ca && rows[ca][ioa].ioa == ioa
      ensures Valid() && this.rows == rows && sent == []
    {
      this.rows := rows;
      this.sent := [];
    }

    /** `table[ca]`: the row, inserted empty if it was missing. */
    method Row(ca: int) returns (row: map<int, DataPoint?>)
      requires Valid()
      modifies `rows
      ensures Valid() && Cells() == old(Cells())
      ensures Abs() == TouchRow(old(Abs()), ca)
      ensures ca in rows && row == rows[ca]
    {
      hide Abs, Objects;
      if ca !in rows {
        rows := rows[ca := map[]];
      }
      row := rows[ca];
      SameObjects(rows, old(rows));
      assert Shows(TouchRow(old(Abs()), ca));
      ShowsOnlyAbs(TouchRow(old(Abs()), ca));
    }

    /** `table[ca][ioa]`: the cell, inserted null if it was missing. */
    method Cell(ca: int, ioa: int) returns (dp: DataPoint?)
      requires Valid() && ca in rows
      modifies `rows
      ensures Valid() && Cells() == old(Cells())
      ensures Abs() == Touch(old(Abs()), ca, ioa)
      ensures ca in rows && ioa in rows[ca] && dp == rows[ca][ioa]
    {
      hide Abs, Objects, InCell;
      if ioa !in rows[ca] {
        InsertedNullHasNoObject(rows, ca, ioa);
        rows := rows[ca := rows[ca][ioa := null]];
        assert Shows(Touch(old(Abs()), ca, ioa));
        ShowsOnlyAbs(Touch(old(Abs()), ca, ioa));
      }
      dp := rows[ca][ioa];
    }

    lemma ShowsStored(image: Image, before: map<int, map<int, DataPoint?>>, dp: DataPoint)
      requires dp.ca in before && rows == before[dp.ca := before[dp.ca][dp.ioa := dp]]
      requires image.Keys == before.Keys && forall ca :: ca in before ==> image[ca].Keys == before[ca].Keys
      requires forall ca, ioa :: ca in before && ioa in before[ca] ==> image[ca][ioa] == CellView(before[ca][ioa])
      ensures Shows(Stored(image, dp.ca, dp.ioa, dp.View()))
    {
      hide Abs, Cells;
    }

    /** The assignment to a cell of a row that exists. */
    method Assign(dp: DataPoint)
      requires Valid() && dp.ca in rows
      modifies `rows
      ensures Valid() && Cells() <= old(Cells()) + {dp}
      ensures Abs() == Stored(old(Abs()), dp.ca, dp.ioa, dp.View())
    {
      hide Abs, Objects, Stored;
      ObjectsAfterPut(rows, dp);
      ghost var image := Abs();
      rows := rows[dp.ca := rows[dp.ca][dp.ioa := dp]];
      ShowsStored(image, old(rows), dp);
      ShowsOnlyAbs(Stored(image, dp.ca, dp.ioa, dp.View()));
    }

    /** `table[ca][ioa] = dp`, as the import does it. */
    method Put(dp: DataPoint)
      requires Valid()
      modifies `rows
      ensures Valid() && Cells() <= old(Cells()) + {dp}
      ensures Abs() == Stored(TouchRow(old(Abs()), dp.ca), dp.ca, dp.ioa, dp.View())
    {
      hide Abs, Objects;
      var row := Row(dp.ca);
      Assign(dp);
    }

    /** `m_getDataPoint`: both lookups insert; a point of another type is not returned. */
    method GetDataPoint(ca: int, ioa: int, typeId: int) returns (dp: DataPoint?)
      requires Valid()
      modifies `rows
      ensures Valid() && Cells() == old(Cells())
      ensures Abs() == Touch(old(Abs()), ca, ioa)
      ensures ca in rows && ioa in rows[ca]
      ensures dp == if rows[ca][ioa] != null && IsMessageTypeMatching(rows[ca][ioa].dataType, typeId)
                    then rows[ca][ioa] else null
    {
      hide Abs, Objects;
      var row := Row(ca);
      dp := Cell(ca, ioa);
      if dp != null {
        if !IsMessageTypeMatching(dp.dataType, typeId) {
          dp := null;
        }
      }
    }

    /** `m_updateDataPoint` on the point of a cell: no other cell changes. */
    method UpdateCell(ca: int, ioa: int, dp: DataPoint, obj: DataObject, now: int)
      requires Valid() && InCell(rows, ca, ioa, dp)
      modifies dp
      ensures dp.View() == Updated(old(dp.View()), obj.typeId, obj.value, obj.quality, obj.ts, now)
      ensures Abs() == Stored(old(Abs()), ca, ioa, dp.View())
    {
      hide Abs, Objects, UpdatedContent;
      ghost var was := Abs();
      dp.Update(obj.typeId, obj.value, obj.quality, obj.ts, now);
      forall c, i | c in rows && i in rows[c] && (c != ca || i != ioa)
        ensures CellView(rows[c][i]) == old(CellView(rows[c][i]))
      {
        assert rows[c][i] != dp;
      }
      assert Shows(Stored(was, ca, ioa, dp.View()));
      ShowsOnlyAbs(Stored(was, ca, ioa, dp.View()));
    }

    /** `m_enqueueSpontDatapoint`: a type that no reading carries sends nothing; for a type that
        fits the point the message shows what the union holds, with the time if the type has a tag. */
    method EnqueueSpontaneous(dp: DataPoint, cot: int, typeId: int)
      modifies `sent
      ensures Abs() == old(Abs()) && Cells() == old(Cells()) && Valid() == old(Valid())
      ensures sent == old(sent) + (var info := EncodeSpontaneous(dp.View(), typeId);
                                   if info.Some? then [Message(cot, dp.ca, info.value)] else [])
      ensures !IsReadingType(typeId) ==> sent == old(sent)
      ensures WellTyped(dp.View()) && IsMessageTypeMatching(dp.dataType, typeId) ==>
                sent == old(sent) + [Message(cot, dp.ca, InfoObject(typeId, dp.ioa, dp.value,
                                                                    if HasTimeTag(typeId) then dp.ts else None))]
    {
      var info: Option<InfoObject> := None;
      if typeId == M_SP_NA_1 {
        info := Some(InfoObject(typeId, dp.ioa, Read(dp.value, SP), None));
      } else if typeId == M_SP_TB_1 {
        info := Some(InfoObject(typeId, dp.ioa, Read(dp.value, SP), dp.ts));
      } else if typeId == M_DP_NA_1 {
        info := Some(InfoObject(typeId, dp.ioa, Read(dp.value, DP), None));
      } else if typeId == M_DP_TB_1 {
        info := Some(InfoObject(typeId, dp.ioa, Read(dp.value, DP), dp.ts));
      } else if typeId == M_ST_NA_1 {
        info := Some(InfoObject(typeId, dp.ioa, Read(dp.value, StepPos), None));
      } else if typeId == M_ST_TB_1 {
        info := Some(InfoObject(typeId, dp.ioa, Read(dp.value, StepPos), dp.ts));
      } else if typeId == M_ME_NA_1 {
        info := Some(InfoObject(typeId, dp.ioa, Read(dp.value, Normalized), None));
      } else if typeId == M_ME_TD_1 {
        info := Some(InfoObject(typeId, dp.ioa, Read(dp.value, Normalized), dp.ts));
      } else if typeId == M_ME_NB_1 {
        info := Some(InfoObject(typeId, dp.ioa, Read(dp.value, Scaled), None));
      } else if typeId == M_ME_TE_1 {
        info := Some(InfoObject(typeId, dp.ioa, Read(dp.value, Scaled), dp.ts));
      } else if typeId == M_ME_NC_1 {
        info := Some(InfoObject(typeId, dp.ioa, Read(dp.value, Short), None));
      } else if typeId == M_ME_TF_1 {
        info := Some(InfoObject(typeId, dp.ioa, Read(dp.value, Short), dp.ts));
      }
      if info.Some? {
        sent := sent + [Message(cot, dp.ca, info.value)];
      }
      Stays();
    }

    /** The branch of `send` for a data object that is not feedback. */
    method HandleReading(obj: DataObject, now: int)
      requires Valid() && !IsFeedback(obj)
      modifies this, Cells()
      ensures Valid() && Cells() == old(Cells())
      ensures Abs() == ImageStep(old(Abs()), obj, now)
      ensures sent == old(sent) + Messages(old(Abs()), obj, now)
    {
      hide Abs, Objects, UpdatedContent, EncodeSpontaneous, WellTyped, HasTimeTag, IsReadingType, TypeIdToDataType;
      if IsComplete(obj) {
        var dp := GetDataPoint(obj.ca, obj.ioa, obj.typeId);
        assert Abs()[obj.ca][obj.ioa] == CellView(rows[obj.ca][obj.ioa]);
        if dp != null {
          assert dp in Cells() by {
            InCellIsObject(rows, obj.ca, obj.ioa, dp);
          }
          ghost var touched, view := Abs(), dp.View();
          UpdateCell(obj.ca, obj.ioa, dp, obj, now);
          assert touched[obj.ca][obj.ioa] == Some(view);
          if IsSpontaneous(obj.cot) {
            EnqueueSpontaneous(dp, obj.cot, obj.typeId);
          }
        }
      }
    }
  }
}
