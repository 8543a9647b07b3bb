/** What the answer to an interrogation contains: the asked points and nothing else, in ascending
    order, in as few messages as possible, as the readings left them, whatever the lookups inserted. */
module InterrogationTheorems {
  import opened Machine
  import opened Protocol
  import opened Points
  import opened ProcessImage
  import opened Interrogation
  import opened GiGroups
  import Packing
  import Terms

  /** A row whose points sit in their cells. */
  ghost predicate IsRow(row: map<int, Option<Point>>, ca: int) {
    forall ioa :: ioa in row && row[ioa].Some? ==> IsAt(row[ioa].value, ca, ioa)
  }

  /** The object sent for a point: its type without time tag, its address, what its union holds. */
  function ObjectFor(p: Point): InfoObject {
    InfoObject(match p.dataType
               case SP => M_SP_NA_1
               case DP => M_DP_NA_1
               case StepPos => M_ST_NA_1
               case Normalized => M_ME_NA_1
               case Scaled => M_ME_NB_1
               case _ => M_ME_NC_1,
               p.ioa, p.content, None)
  }

  ghost predicate AscendingObjects(os: seq<InfoObject>) {
    forall i, j :: 0 <= i < j < |os| ==> os[i].ioa < os[j].ioa
  }

  lemma ObjectOfCell(row: map<int, Option<Point>>, ca: int, k: int, qoi: int)
    requires QOI_STATION <= qoi && IsRow(row, ca) && k in row
    ensures CellObjects(row[k], qoi) == if IsAnswered(row[k], qoi) then [ObjectFor(row[k].value)] else []
    ensures IsAnswered(row[k], qoi) ==> ObjectFor(row[k].value).ioa == k
  {
    if IsAnswered(row[k], qoi) {
      assert IsAt(row[k].value, ca, k);
    }
  }

  lemma {:induction false} ObjectsOfKeys(row: map<int, Option<Point>>, ca: int, keys: seq<int>, qoi: int)
    requires QOI_STATION <= qoi && IsRow(row, ca)
    requires forall k :: k in keys ==> k in row
    requires forall i, j :: 0 <= i < j < |keys| ==> keys[i] < keys[j]
    ensures AscendingObjects(ObjectsOf(row, keys, qoi))
    ensures forall o :: o in ObjectsOf(row, keys, qoi)
                   <==> o.ioa in keys && IsAnswered(row[o.ioa], qoi) && o == ObjectFor(row[o.ioa].value)
  {
    if keys == [] {
    } else {
      var front, k := keys[..|keys| - 1], keys[|keys| - 1];
      assert keys == front + [k];
      ObjectsOfKeys(row, ca, front, qoi);
      var before := ObjectsOf(row, front, qoi);
      forall i | 0 <= i < |before|
        ensures before[i].ioa < k
      {
        assert before[i] in before;
        assert before[i].ioa in front;
      }
      ObjectOfCell(row, ca, k, qoi);
      hide IsAnswered, ObjectFor, CellObjects;
      forall o
        ensures o in ObjectsOf(row, keys, qoi)
           <==> o.ioa in keys && IsAnswered(row[o.ioa], qoi) && o == ObjectFor(row[o.ioa].value)
      {
        if o.ioa == k {
          assert o !in before;
        }
      }
    }
  }

  /** Exactly the non-null monitoring points of the asked group, in ascending order of address. */
  lemma ObjectsOfRow(row: map<int, Option<Point>>, ca: int, qoi: int)
    requires QOI_STATION <= qoi && IsRow(row, ca)
    ensures AscendingObjects(RowObjects(row, qoi))
    ensures forall o :: o in RowObjects(row, qoi)
                   <==> o.ioa in row && IsAnswered(row[o.ioa], qoi) && o == ObjectFor(row[o.ioa].value)
  {
    ObjectsOfKeys(row, ca, Ascending(row.Keys), qoi);
  }

  /** Two ascending lists with the same members are the same list. */
  lemma {:induction false} AscendingIsUnique(a: seq<InfoObject>, b: seq<InfoObject>)
    requires AscendingObjects(a) && AscendingObjects(b)
    requires forall o :: o in a <==> o in b
    ensures a == b
  {
    assert a != [] ==> a[|a| - 1] in a;
    assert b != [] ==> b[|b| - 1] in b;
    if a != [] && b != [] {
      var x, y := a[|a| - 1], b[|b| - 1];
      assert x in b && y in a;
      assert x == y;
      var a', b' := a[..|a| - 1], b[..|b| - 1];
      forall o
        ensures o in a' <==> o in b'
      {
        assert o in a <==> o in a' || o == x;
        assert o in b <==> o in b' || o == x;
        if o in a' {
          assert o != x;
        }
        if o in b' {
          assert o != x;
        }
      }
      AscendingIsUnique(a', b');
    }
  }

  /** Null cells do not show: rows with the same points give the same answer. */
  lemma SamePointsSameObjects(row: map<int, Option<Point>>, row': map<int, Option<Point>>, ca: int, qoi: int)
    requires QOI_STATION <= qoi && IsRow(row, ca)
    requires forall ioa :: (if ioa in row then row[ioa] else None) == (if ioa in row' then row'[ioa] else None)
    ensures RowObjects(row, qoi) == RowObjects(row', qoi)
  {
    assert IsRow(row', ca) by {
      forall ioa | ioa in row' && row'[ioa].Some?
        ensures IsAt(row'[ioa].value, ca, ioa)
      {
        assert ioa in row && row[ioa] == row'[ioa];
      }
    }
    ObjectsOfRow(row, ca, qoi);
    ObjectsOfRow(row', ca, qoi);
    forall o
      ensures o in RowObjects(row, qoi) <==> o in RowObjects(row', qoi)
    {
      assert (if o.ioa in row then row[o.ioa] else None) == (if o.ioa in row' then row'[o.ioa] else None);
    }
    AscendingIsUnique(RowObjects(row, qoi), RowObjects(row', qoi));
  }

  // ---------------------------------------------------------------- one answer

  /** The shape of an answer whose data messages are `messages`. */
  ghost predicate IsAnswerWith(frames: seq<Frame>, messages: seq<Packing.Objects>, con: Connection, ca: int, oa: int,
                               qoi: int)
  {
    && |frames| == |messages| + 2
    && frames[0] == ActCon(con, ca, qoi, false)
    && (forall i :: 0 <= i < |messages| ==>
          frames[i + 1] == Data(con, ca, oa, 20, messages[i]))
    && frames[|messages| + 1] == ActTerm(con, ca, qoi)
  }

  lemma {:induction false} DataFramesAre(con: Connection, ca: int, oa: int, messages: seq<Packing.Objects>)
    ensures |DataFrames(con, ca, oa, messages)| == |messages|
    ensures forall i :: 0 <= i < |messages| ==>
              DataFrames(con, ca, oa, messages)[i] == Data(con, ca, oa, COT_INTERROGATED_BY_STATION, messages[i])
  {
    if messages != [] {
      DataFramesAre(con, ca, oa, messages[..|messages| - 1]);
    }
  }

  lemma ResponseShape(l: Packing.Limits, con: Connection, row: map<int, Option<Point>>, ca: int, oa: int, qoi: int)
    requires QOI_STATION <= qoi
    ensures IsAnswerWith(Response(l, con, row, ca, oa, qoi), Packing.Messages(l, RowObjects(row, qoi)),
                         con, ca, oa, qoi)
  {
    hide Packing.Messages, RowObjects;
    DataFramesAre(con, ca, oa, Packing.Messages(l, RowObjects(row, qoi)));
  }

  /** Interrogation loses and invents nothing: if every asked object fits an empty message, the
      answer is one ACT-CON, then messages that may be sent and whose objects are, in ascending
      order, exactly the asked points of the row, then one ACT-TERM; and it has as few data
      messages as any packing of these objects in this order. */
  lemma InterrogationIsLosslessAndOptimal(l: Packing.Limits, con: Connection, row: map<int, Option<Point>>,
                                          ca: int, oa: int, qoi: int)
    requires QOI_STATION <= qoi && IsRow(row, ca)
    requires Packing.AllFit(l, RowObjects(row, qoi))
    ensures exists messages ::
              && IsAnswerWith(Response(l, con, row, ca, oa, qoi), messages, con, ca, oa, qoi)
              && Packing.IsPacking(l, messages, RowObjects(row, qoi))
              && (forall others :: Packing.IsPacking(l, others, RowObjects(row, qoi)) ==> |messages| <= |others|)
    ensures AscendingObjects(RowObjects(row, qoi))
    ensures forall o :: o in RowObjects(row, qoi)
                   <==> o.ioa in row && IsAnswered(row[o.ioa], qoi) && o == ObjectFor(row[o.ioa].value)
  {
    hide Packing.AllFit, Packing.IsPacking, Packing.Messages, RowObjects, Response, IsAnswered, ObjectFor;
    var os := RowObjects(row, qoi);
    var messages := Packing.Messages(l, os);
    ResponseShape(l, con, row, ca, oa, qoi);
    ObjectsOfRow(row, ca, qoi);
    Packing.PackIsPacking(l, os);
    forall others | Packing.IsPacking(l, others, os)
      ensures |messages| <= |others|
    {
      Packing.PackingIsOptimal(l, os, others);
    }
  }

  /** The length of an answer in closed form: per run of points of one type, as many messages as
      the capacity of that type makes necessary. */
  lemma AnswerLength(l: Packing.Limits, con: Connection, row: map<int, Option<Point>>, ca: int, oa: int, qoi: int)
    requires QOI_STATION <= qoi && Packing.HeaderSize(l) <= l.maxAsdu
    requires Packing.AllFit(l, RowObjects(row, qoi))
    ensures forall o :: o in RowObjects(row, qoi) ==> Packing.Capacity(l, o.typeId) > 0
    ensures |Response(l, con, row, ca, oa, qoi)| == Packing.RunSum(l, RowObjects(row, qoi)) + 2
  {
    hide Packing.Messages, Packing.RunSum, Packing.AllFit, RowObjects, Response;
    ResponseShape(l, con, row, ca, oa, qoi);
    Packing.CountIsRunSum(l, RowObjects(row, qoi));
  }

  /** For the sizes that a configuration may have, from 14 octets on, the fit condition holds of
      every row, so nothing is ever lost. */
  lemma NothingIsLostFromFourteen(asduSize: nat, caSize: nat, ioaSize: nat, row: map<int, Option<Point>>, ca: int,
                                  qoi: int)
    requires caSize <= 2 && ioaSize <= 3 && (asduSize == 0 || asduSize >= 14)
    requires QOI_STATION <= qoi && IsRow(row, ca)
    ensures Packing.AllFit(Packing.LimitsOf(asduSize, caSize, ioaSize), RowObjects(row, qoi))
  {
    hide RowObjects, IsAnswered, IsRow, Packing.AllFit, Packing.LimitsOf;
    ObjectsOfRow(row, ca, qoi);
    Packing.FourteenOctetsSuffice(asduSize, caSize, ioaSize, RowObjects(row, qoi));
  }

  /** The condition is exact: the data messages carry all asked objects if and only if each fits an
      empty message. */
  lemma InterrogationIsLosslessIff(l: Packing.Limits, con: Connection, row: map<int, Option<Point>>,
                                   ca: int, oa: int, qoi: int, messages: seq<Packing.Objects>)
    requires QOI_STATION <= qoi
    requires IsAnswerWith(Response(l, con, row, ca, oa, qoi), messages, con, ca, oa, qoi)
    ensures Packing.Flatten(messages) == RowObjects(row, qoi) <==> Packing.AllFit(l, RowObjects(row, qoi))
  {
    hide Packing.Messages, Packing.AllFit, Packing.Flatten, RowObjects, Response;
    var sent := Packing.Messages(l, RowObjects(row, qoi));
    ResponseShape(l, con, row, ca, oa, qoi);
    var frames := Response(l, con, row, ca, oa, qoi);
    forall i | 0 <= i < |sent|
      ensures sent[i] == messages[i]
    {
      assert frames[i + 1] == frames[i + 1];
    }
    assert sent == messages;
    Packing.LosslessIff(l, RowObjects(row, qoi));
  }

  /** What an interrogation reports is the history: after any readings the asked objects of a row
      are those of the pristine table's points, each with the content computed from the readings. */
  lemma InterrogationReportsHistory(image: Image, history: seq<Reading>, ca: int, qoi: int)
    requires Pristine(image) && ca in image && QOI_STATION <= qoi
    ensures ca in ImageAfter(image, history)
    ensures var os := RowObjects(ImageAfter(image, history)[ca], qoi);
            && AscendingObjects(os)
            && forall o :: o in os <==>
                 && o.ioa in image[ca] && IsAnswered(image[ca][o.ioa], qoi)
                 && var p := image[ca][o.ioa].value;
                    p.dataType != Unsupported && o == ObjectFor(p.(content := ContentFromHistory(p, history)))
  {
    hide ContentFromHistory, ImageAfter, RowObjects, IsAsked;
    RowsStay(image, history, ca);
    var row := ImageAfter(image, history)[ca];
    forall ioa
      ensures ioa in row && row[ioa].Some? ==> IsAt(row[ioa].value, ca, ioa)
      ensures (ioa in row && row[ioa].Some?) <==> (ioa in image[ca] && image[ca][ioa].Some?)
      ensures ioa in image[ca] && image[ca][ioa].Some? ==>
                var p := image[ca][ioa].value;
                && p.dataType != Unsupported
                && SameDefinition(p, row[ioa].value) && row[ioa].value.content == ContentFromHistory(p, history)
    {
      ImageIsHistory(image, history, ca, ioa);
      assert PointAt(image, ca, ioa).Some? ==> IsAt(PointAt(image, ca, ioa).value, ca, ioa);
    }
    ObjectsOfRow(row, ca, qoi);
  }

  lemma {:induction false} RowsStay(image: Image, history: seq<Reading>, ca: int)
    requires ca in image
    ensures ca in ImageAfter(image, history)
  {
    if history != [] {
      RowsStay(image, history[..|history| - 1], ca);
    }
  }

  // ---------------------------------------------------------------- inserted rows and cells

  /** Number of ACT-TERM frames. */
  function TermCount(frames: seq<Frame>): nat {
    if frames == [] then 0
    else TermCount(frames[..|frames| - 1]) + if frames[|frames| - 1].ActTerm? then 1 else 0
  }

  lemma {:induction false} TermsAppend(a: seq<Frame>, b: seq<Frame>)
    ensures TermCount(a + b) == TermCount(a) + TermCount(b)
  {
    if b == [] {
      assert a + b == a;
    } else {
      assert (a + b)[..|a + b| - 1] == a + b[..|b| - 1];
      TermsAppend(a, b[..|b| - 1]);
    }
  }

  lemma {:induction false} NoTermsInData(con: Connection, ca: int, oa: int, messages: seq<Packing.Objects>)
    ensures TermCount(DataFrames(con, ca, oa, messages)) == 0
  {
    if messages != [] {
      NoTermsInData(con, ca, oa, messages[..|messages| - 1]);
    }
  }

  lemma OneTermPerResponse(l: Packing.Limits, con: Connection, row: map<int, Option<Point>>, ca: int, oa: int, qoi: int)
    requires QOI_STATION <= qoi
    ensures TermCount(Response(l, con, row, ca, oa, qoi)) == 1
  {
    var data := DataFrames(con, ca, oa, Packing.Messages(l, RowObjects(row, qoi)));
    NoTermsInData(con, ca, oa, Packing.Messages(l, RowObjects(row, qoi)));
    TermsAppend([ActCon(con, ca, qoi, false)] + data, [ActTerm(con, ca, qoi)]);
    TermsAppend([ActCon(con, ca, qoi, false)], data);
    assert TermCount([]) == 0;
    assert [ActCon(con, ca, qoi, false)][..0] == [] && [ActTerm(con, ca, qoi)][..0] == [];
  }

  lemma {:induction false} OneTermPerAddress(l: Packing.Limits, con: Connection, image: Image, cas: seq<int>, oa: int,
                                             qoi: int)
    requires QOI_STATION <= qoi && forall ca :: ca in cas ==> ca in image
    ensures TermCount(Responses(l, con, image, cas, oa, qoi)) == |cas|
  {
    if cas != [] {
      var n := |cas| - 1;
      var ca := cas[n];
      assert ca in cas && ca in image;
      OneTermPerAddress(l, con, image, cas[..n], oa, qoi);
      OneTermPerResponse(l, con, image[ca], ca, oa, qoi);
      TermsAppend(Responses(l, con, image, cas[..n], oa, qoi), Response(l, con, image[ca], ca, oa, qoi));
    }
  }

  lemma {:induction false} AsManyKeys(s: set<int>)
    ensures |Ascending(s)| == |s|
  {
    if s != {} {
      AsManyKeys(s - {Least(s)});
    }
  }

  lemma SameRowSameResponse(l: Packing.Limits, con: Connection, image: Image, image': Image, ca: int, oa: int, qoi: int)
    requires QOI_STATION <= qoi && WellFormed(image) && SamePoints(image, image')
    requires ca in image && ca in image'
    ensures Response(l, con, image[ca], ca, oa, qoi) == Response(l, con, image'[ca], ca, oa, qoi)
  {
    var row, row' := image[ca], image'[ca];
    forall ioa
      ensures (if ioa in row then row[ioa] else None) == (if ioa in row' then row'[ioa] else None)
      ensures ioa in row && row[ioa].Some? ==> IsAt(row[ioa].value, ca, ioa)
    {
      assert PointAt(image, ca, ioa) == PointAt(image', ca, ioa);
    }
    SamePointsSameObjects(row, row', ca, qoi);
  }

  /** Inserting lookups are harmless for configured addresses, and this is exactly how far it goes:
      on a table that grew, an interrogation is answered as on the pristine one if and only if the
      qualifier is out of range, or the addressed row is configured or still missing, or, for the
      broadcast address, no row was added. */
  lemma AnswerOnGrownTable(l: Packing.Limits, con: Connection, pristine: Image, grown: Image, ca: int, oa: int,
                           qoi: int)
    requires WellFormed(pristine) && SamePoints(pristine, grown) && pristine.Keys <= grown.Keys
    ensures Answer(l, con, grown, ca, oa, qoi) == Answer(l, con, pristine, ca, oa, qoi) <==>
              || qoi < QOI_STATION || qoi > QOI_GROUP_16
              || (if Terms.NamesAll(l.caSize, ca) then grown.Keys == pristine.Keys else ca in pristine || ca !in grown)
  {
    BroadcastByNumber(l, ca);
    if QOI_STATION <= qoi <= QOI_GROUP_16 {
      if Terms.NamesAll(l.caSize, ca) {
        if grown.Keys == pristine.Keys {
          SameRowsSameResponses(l, con, pristine, grown, Ascending(pristine.Keys), oa, qoi);
        } else {
          OneTermPerAddress(l, con, pristine, Ascending(pristine.Keys), oa, qoi);
          OneTermPerAddress(l, con, grown, Ascending(grown.Keys), oa, qoi);
          AsManyKeys(pristine.Keys);
          AsManyKeys(grown.Keys);
          FewerElements(pristine.Keys, grown.Keys);
        }
      } else if ca in pristine {
        SameRowSameResponse(l, con, pristine, grown, ca, oa, qoi);
      } else if ca in grown {
        assert Response(l, con, grown[ca], ca, oa, qoi)[0] == ActCon(con, ca, qoi, false);
      }
    }
  }

  lemma FewerElements(a: set<int>, b: set<int>)
    requires a < b
    ensures |a| < |b|
  {
    assert b == a + (b - a);
    assert b - a != {};
    assert |b| == |a| + |b - a|;
  }

  lemma {:induction false} SameRowsSameResponses(l: Packing.Limits, con: Connection, image: Image, image': Image,
                                                 cas: seq<int>, oa: int, qoi: int)
    requires QOI_STATION <= qoi && WellFormed(image) && SamePoints(image, image')
    requires forall ca :: ca in cas ==> ca in image && ca in image'
    ensures Responses(l, con, image, cas, oa, qoi) == Responses(l, con, image', cas, oa, qoi)
  {
    if cas != [] {
      assert cas[|cas| - 1] in cas;
      SameRowsSameResponses(l, con, image, image', cas[..|cas| - 1], oa, qoi);
      SameRowSameResponse(l, con, image, image', cas[|cas| - 1], oa, qoi);
    }
  }
}
