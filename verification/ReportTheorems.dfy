/** What masters are told about the process, over whole runs of the server: the answers to
    interrogations, and the spontaneous messages. */
module ReportTheorems {
  import opened Machine
  import opened Protocol
  import opened Points
  import opened ProcessImage
  import opened ServerSpec
  import opened ServerTheorems
  import GiGroups
  import Interrogation
  import InterrogationTheorems
  import Packing
  import SouthReadings
  import Terms

  // ---------------------------------------------------------------- interrogations

  /** The objects of the asked points of a configured row, with what the readings say, in ascending
      order. */
  ghost predicate AreReported(os: Packing.Objects, row: map<int, Option<Point>>, qoi: int, history: seq<Reading>)
    requires QOI_STATION <= qoi
  {
    && InterrogationTheorems.AscendingObjects(os)
    && forall o :: o in os <==>
         && o.ioa in row && Interrogation.IsAnswered(row[o.ioa], qoi)
         && var p := row[o.ioa].value;
            p.dataType != Unsupported
            && o == InterrogationTheorems.ObjectFor(p.(content := ContentFromHistory(p, history)))
  }

  /** A full answer for one common address: ACT-CON, messages that may be sent and carry exactly the
      reported objects, no packing of which has fewer, ACT-TERM. */
  ghost predicate Reports(l: Packing.Limits, frames: seq<Interrogation.Frame>, con: Connection, ca: int, oa: int,
                          qoi: int, row: map<int, Option<Point>>, history: seq<Reading>)
    requires QOI_STATION <= qoi
  {
    exists messages, os ::
      && InterrogationTheorems.IsAnswerWith(frames, messages, con, ca, oa, qoi)
      && Packing.IsPacking(l, messages, os) && AreReported(os, row, qoi, history)
      && forall others :: Packing.IsPacking(l, others, os) ==> |messages| <= |others|
  }

  lemma RowIsReported(cfg: Config, s: State, es: seq<Event>, ca: int, qoi: int)
    requires IsInitial(s) && ca in Run(cfg, s, es).image && QOI_STATION <= qoi
    ensures InterrogationTheorems.IsRow(Run(cfg, s, es).image[ca], ca)
    ensures AreReported(Interrogation.RowObjects(Run(cfg, s, es).image[ca], qoi), RowAt(s.image, ca), qoi,
                        Readings(es))
  {
    hide Run, IsInitial, ContentFromHistory, Interrogation.RowObjects;
    var row := Run(cfg, s, es).image[ca];
    RowOfRun(cfg, s, es, ca);
    if ca in s.image {
      InterrogationReportsTheReadings(cfg, s, es, ca, qoi);
    } else {
      InterrogationTheorems.ObjectsOfRow(row, ca, qoi);
    }
  }

  lemma RowOfRun(cfg: Config, s: State, es: seq<Event>, ca: int)
    requires IsInitial(s) && ca in Run(cfg, s, es).image
    ensures InterrogationTheorems.IsRow(Run(cfg, s, es).image[ca], ca)
    ensures ca !in s.image ==> forall ioa :: ioa in Run(cfg, s, es).image[ca] ==> Run(cfg, s, es).image[ca][ioa].None?
  {
    hide Run, ImageAfter, IdealAfter, SamePoints, ContentFromHistory;
    ImageFollowsReadings(cfg, s, es);
    var row := Run(cfg, s, es).image[ca];
    forall ioa | ioa in row
      ensures row[ioa].Some? ==> IsAt(row[ioa].value, ca, ioa) && ca in s.image
    {
      ProcessImageEqualsHistory(cfg, s, es, ca, ioa);
      assert PointAt(Run(cfg, s, es).image, ca, ioa) == row[ioa];
    }
  }

  /** The asked points of a row fit an empty message, one by one. */
  ghost predicate AskedFit(l: Packing.Limits, row: map<int, Option<Point>>, qoi: int)
    requires QOI_STATION <= qoi
  {
    forall ioa :: ioa in row && Interrogation.IsAnswered(row[ioa], qoi) ==>
      Packing.Fits(l, InterrogationTheorems.ObjectFor(row[ioa].value))
  }

  /** With room for a short float every row does. */
  lemma RoomForAll(l: Packing.Limits, row: map<int, Option<Point>>, qoi: int)
    requires QOI_STATION <= qoi && 9 + l.caSize + l.ioaSize <= l.maxAsdu
    ensures AskedFit(l, row, qoi)
  {
    hide Packing.Fits;
    Packing.EveryObjectFitsIff(l);
  }

  lemma FitsByTypeOnly(l: Packing.Limits, o: InfoObject, o': InfoObject)
    requires o.typeId == o'.typeId
    ensures Packing.Fits(l, o) <==> Packing.Fits(l, o')
  {
  }

  /** Whether the objects fit does not depend on what the readings say. */
  lemma ReportedFitIff(l: Packing.Limits, os: Packing.Objects, row: map<int, Option<Point>>, ca: int, qoi: int,
                       history: seq<Reading>)
    requires QOI_STATION <= qoi && AreReported(os, row, qoi, history) && InterrogationTheorems.IsRow(row, ca)
    ensures Packing.AllFit(l, os) <==> AskedFit(l, row, qoi)
  {
    hide Packing.Fits, ContentFromHistory, GiGroups.IsAsked;
    if Packing.AllFit(l, os) {
      forall ioa | ioa in row && Interrogation.IsAnswered(row[ioa], qoi)
        ensures Packing.Fits(l, InterrogationTheorems.ObjectFor(row[ioa].value))
      {
        var p := row[ioa].value;
        var o := InterrogationTheorems.ObjectFor(p.(content := ContentFromHistory(p, history)));
        assert o in os;
        FitsByTypeOnly(l, o, InterrogationTheorems.ObjectFor(p));
      }
    }
    if AskedFit(l, row, qoi) {
      forall o | o in os
        ensures Packing.Fits(l, o)
      {
        FitsByTypeOnly(l, o, InterrogationTheorems.ObjectFor(row[o.ioa].value));
      }
    }
  }

  lemma PristineRow(s: State, ca: int)
    requires IsInitial(s)
    ensures InterrogationTheorems.IsRow(RowAt(s.image, ca), ca)
  {
    forall ioa | ioa in RowAt(s.image, ca) && RowAt(s.image, ca)[ioa].Some?
      ensures IsAt(RowAt(s.image, ca)[ioa].value, ca, ioa)
    {
      assert PointAt(s.image, ca, ioa) == RowAt(s.image, ca)[ioa];
    }
  }

  /** One answer in a reachable state is a full one exactly if the asked configured points fit. */
  lemma ResponseReportsIff(cfg: Config, s: State, es: seq<Event>, con: Connection, ca: int, oa: int, qoi: int)
    requires IsInitial(s) && ca in Run(cfg, s, es).image && QOI_STATION <= qoi
    ensures Reports(cfg.limits, Interrogation.Response(cfg.limits, con, Run(cfg, s, es).image[ca], ca, oa, qoi),
                    con, ca, oa, qoi, RowAt(s.image, ca), Readings(es))
       <==> AskedFit(cfg.limits, RowAt(s.image, ca), qoi)
  {
    hide Run, IsInitial, AreReported, Interrogation.Response, Interrogation.RowObjects, Packing.IsPacking, RowAt,
         InterrogationTheorems.IsAnswerWith, AskedFit;
    var row := Run(cfg, s, es).image[ca];
    var frames := Interrogation.Response(cfg.limits, con, row, ca, oa, qoi);
    RowIsReported(cfg, s, es, ca, qoi);
    PristineRow(s, ca);
    var objects := Interrogation.RowObjects(row, qoi);
    ReportedFitIff(cfg.limits, objects, RowAt(s.image, ca), ca, qoi, Readings(es));
    if AskedFit(cfg.limits, RowAt(s.image, ca), qoi) {
      InterrogationTheorems.InterrogationIsLosslessAndOptimal(cfg.limits, con, row, ca, oa, qoi);
    }
    if Reports(cfg.limits, frames, con, ca, oa, qoi, RowAt(s.image, ca), Readings(es)) {
      var messages, os :|
        && InterrogationTheorems.IsAnswerWith(frames, messages, con, ca, oa, qoi)
        && Packing.IsPacking(cfg.limits, messages, os) && AreReported(os, RowAt(s.image, ca), qoi, Readings(es));
      ReportedAreUnique(os, objects, RowAt(s.image, ca), qoi, Readings(es));
      PackingFlattens(cfg.limits, messages, os);
      InterrogationTheorems.InterrogationIsLosslessIff(cfg.limits, con, row, ca, oa, qoi, messages);
    }
  }

  lemma PackingFlattens(l: Packing.Limits, messages: seq<Packing.Objects>, os: Packing.Objects)
    requires Packing.IsPacking(l, messages, os)
    ensures Packing.Flatten(messages) == os
  {
  }

  lemma ReportedAreUnique(a: Packing.Objects, b: Packing.Objects, row: map<int, Option<Point>>, qoi: int,
                          history: seq<Reading>)
    requires QOI_STATION <= qoi && AreReported(a, row, qoi, history) && AreReported(b, row, qoi, history)
    ensures a == b
  {
    hide Interrogation.IsAnswered, ContentFromHistory, InterrogationTheorems.ObjectFor;
    InterrogationTheorems.AscendingIsUnique(a, b);
  }

  function Concat(answers: seq<seq<Interrogation.Frame>>): seq<Interrogation.Frame> {
    if answers == [] then [] else Concat(answers[..|answers| - 1]) + answers[|answers| - 1]
  }

  lemma {:induction false} ResponsesReport(cfg: Config, s: State, es: seq<Event>, con: Connection, cas: seq<int>,
                                           oa: int, qoi: int) returns (answers: seq<seq<Interrogation.Frame>>)
    requires IsInitial(s) && QOI_STATION <= qoi && forall ca :: ca in cas ==> ca in Run(cfg, s, es).image
    requires forall ca :: ca in cas ==> AskedFit(cfg.limits, RowAt(s.image, ca), qoi)
    ensures Interrogation.Responses(cfg.limits, con, Run(cfg, s, es).image, cas, oa, qoi) == Concat(answers)
    ensures |answers| == |cas| && forall i :: 0 <= i < |cas| ==>
              Reports(cfg.limits, answers[i], con, cas[i], oa, qoi, RowAt(s.image, cas[i]), Readings(es))
  {
    hide Run, IsInitial, Reports, Interrogation.Response, AskedFit, RowAt;
    if cas == [] {
      answers := [];
    } else {
      var n := |cas| - 1;
      var ca := cas[n];
      assert ca in cas && ca in Run(cfg, s, es).image;
      var before := ResponsesReport(cfg, s, es, con, cas[..n], oa, qoi);
      ResponseReportsIff(cfg, s, es, con, ca, oa, qoi);
      var answer := Interrogation.Response(cfg.limits, con, Run(cfg, s, es).image[ca], ca, oa, qoi);
      answers := before + [answer];
      assert answers[..n] == before;
    }
  }

  /** The asked configured points of the addressed row, or of all rows, fit. */
  ghost predicate AllAskedFit(l: Packing.Limits, image: Image, ca: int, qoi: int)
    requires QOI_STATION <= qoi
  {
    forall c :: c == ca || Terms.NamesAll(l.caSize, ca) ==> AskedFit(l, RowAt(image, c), qoi)
  }

  /** Full answers for the addressed row or, for the broadcast address, for every row in ascending
      order. */
  ghost predicate AllReported(cfg: Config, s: State, es: seq<Event>, con: Connection, ca: int, oa: int, qoi: int,
                              frames: seq<Interrogation.Frame>)
    requires QOI_STATION <= qoi
  {
    exists cas: seq<int>, answers: seq<seq<Interrogation.Frame>> ::
      && frames == Concat(answers) && |answers| == |cas|
      && cas == (if Terms.NamesAll(cfg.limits.caSize, ca)
                 then Interrogation.Ascending(Run(cfg, s, es).image.Keys) else [ca])
      && forall i :: 0 <= i < |cas| ==>
           Reports(cfg.limits, answers[i], con, cas[i], oa, qoi, RowAt(s.image, cas[i]), Readings(es))
  }

  lemma BroadcastReports(cfg: Config, s: State, es: seq<Event>, con: Connection, ca: int, oa: int, qoi: int)
    requires IsInitial(s) && QOI_STATION <= qoi && Terms.NamesAll(cfg.limits.caSize, ca)
    requires forall c :: AskedFit(cfg.limits, RowAt(s.image, c), qoi)
    ensures var image := Run(cfg, s, es).image;
            AllReported(cfg, s, es, con, ca, oa, qoi,
                        Interrogation.Responses(cfg.limits, con, image, Interrogation.Ascending(image.Keys), oa, qoi))
  {
    hide Run, IsInitial, Reports, Interrogation.Responses, Terms.NamesAll, Concat, AskedFit, RowAt;
    var cas := Interrogation.Ascending(Run(cfg, s, es).image.Keys);
    hide Interrogation.Ascending;
    var answers := ResponsesReport(cfg, s, es, con, cas, oa, qoi);
  }

  lemma AddressReports(cfg: Config, s: State, es: seq<Event>, con: Connection, ca: int, oa: int, qoi: int)
    requires IsInitial(s) && QOI_STATION <= qoi && !Terms.NamesAll(cfg.limits.caSize, ca)
    requires ca in Run(cfg, s, es).image && AskedFit(cfg.limits, RowAt(s.image, ca), qoi)
    ensures AllReported(cfg, s, es, con, ca, oa, qoi,
                        Interrogation.Response(cfg.limits, con, Run(cfg, s, es).image[ca], ca, oa, qoi))
  {
    hide Run, IsInitial, Reports, Interrogation.Response, Terms.NamesAll, Interrogation.Ascending, AskedFit,
         RowAt;
    ResponseReportsIff(cfg, s, es, con, ca, oa, qoi);
    var cas, answers := [ca], [Interrogation.Response(cfg.limits, con, Run(cfg, s, es).image[ca], ca, oa, qoi)];
    OneAnswer(answers[0]);
    hide Concat;
    assert Concat(answers) == answers[0];
  }

  lemma OneAnswer(frames: seq<Interrogation.Frame>)
    ensures Concat([frames]) == frames
  {
    assert [frames][..0] == [] && Concat([]) == [];
  }

  lemma AnswerReports(cfg: Config, s: State, es: seq<Event>, con: Connection, ca: int, oa: int, qoi: int)
    requires IsInitial(s) && QOI_STATION <= qoi <= QOI_GROUP_16
    requires Terms.NamesAll(cfg.limits.caSize, ca) || ca in Run(cfg, s, es).image
    requires AllAskedFit(cfg.limits, s.image, ca, qoi)
    ensures AllReported(cfg, s, es, con, ca, oa, qoi,
                        Interrogation.Answer(cfg.limits, con, Run(cfg, s, es).image, ca, oa, qoi))
  {
    Interrogation.BroadcastByNumber(cfg.limits, ca);
    hide Run, IsInitial, AllReported, Interrogation.Response, Interrogation.Responses, Terms.NamesAll,
         Interrogation.Ascending, AskedFit, RowAt;
    if Terms.NamesAll(cfg.limits.caSize, ca) {
      BroadcastReports(cfg, s, es, con, ca, oa, qoi);
    } else {
      AddressReports(cfg, s, es, con, ca, oa, qoi);
    }
  }

  /** The end-to-end theorem of interrogations. In every reachable state the step that receives one
      appends to the replies full answers: the asked configured points with what the readings say, in
      as few messages as possible, between ACT-CON and ACT-TERM. If the qualifier is out of range or
      there is no row it appends one negative ACT-CON. */
  lemma InterrogationStepReports(cfg: Config, s: State, es: seq<Event>, con: Connection, ca: int, oa: int, qoi: int)
    requires IsInitial(s) && (20 <= qoi ==> AllAskedFit(cfg.limits, s.image, ca, qoi))
    ensures var t := Run(cfg, s, es);
            exists frames ::
              && Step(cfg, t, InterrogationReceived(con, ca, oa, qoi)).replies
                 == t.replies + InterrogationReplies(frames)
              && if 20 <= qoi <= 36 && (Terms.NamesAll(cfg.limits.caSize, ca) || ca in t.image)
                 then AllReported(cfg, s, es, con, ca, oa, qoi, frames)
                 else frames == [Interrogation.ActCon(con, ca, qoi, true)]
  {
    Interrogation.BroadcastByNumber(cfg.limits, ca);
    hide Run, IsInitial, AllReported, Interrogation.Response, Interrogation.Responses, Terms.NamesAll,
         AllAskedFit;
    var t := Run(cfg, s, es);
    var frames := Interrogation.Answer(cfg.limits, con, t.image, ca, oa, qoi);
    if QOI_STATION <= qoi <= QOI_GROUP_16 && (Terms.NamesAll(cfg.limits.caSize, ca) || ca in t.image) {
      AnswerReports(cfg, s, es, con, ca, oa, qoi);
    }
    assert Step(cfg, t, InterrogationReceived(con, ca, oa, qoi)).replies == t.replies + InterrogationReplies(frames);
  }

  // ---------------------------------------------------------------- spontaneous messages

  /** What the library puts into a spontaneous message: the object offered to it, if it fits. The
      message is sent in any case. */
  function Carried(l: Packing.Limits, m: Message): seq<InfoObject> {
    if Packing.Fits(l, m.info) then [m.info] else []
  }

  /** The type with time tag of a data type. */
  function TaggedType(dataType: DataType): int {
    match dataType
    case SP => M_SP_TB_1
    case DP => M_DP_TB_1
    case StepPos => M_ST_TB_1
    case Normalized => M_ME_TD_1
    case Scaled => M_ME_TE_1
    case _ => M_ME_TF_1
  }

  /** Whether a message has room for a point of this type with its time. */
  predicate TaggedFits(l: Packing.Limits, dataType: DataType) {
    Packing.HeaderSize(l) + Packing.ObjectSize(l, TaggedType(dataType)) <= l.maxAsdu
  }

  lemma FitsByType(l: Packing.Limits, dataType: DataType, o: InfoObject)
    requires IsMessageTypeMatching(dataType, o.typeId)
    ensures TaggedFits(l, dataType) ==> Packing.Fits(l, o)
    ensures o.typeId == TaggedType(dataType) ==> (Packing.Fits(l, o) <==> TaggedFits(l, dataType))
  {
    assert Packing.Payload(l, []) == 0;
  }

  /** A point that a reading can address: -1 stands for an address that is missing. */
  ghost predicate IsReachable(image: Image, ca: int, ioa: int) {
    PointAt(image, ca, ioa).Some? && ca != -1 && ioa != -1
  }

  /** A message about a reachable point of the table, under a type of a reading for it. */
  ghost predicate IsOfPoint(image: Image, m: Message) {
    IsReachable(image, m.ca, m.info.ioa)
    && IsMessageTypeMatching(PointAt(image, m.ca, m.info.ioa).value.dataType, m.info.typeId)
  }

  /** Every message of a run is about a configured point. */
  lemma {:induction false} MessagesAreOfPoints(cfg: Config, s: State, es: seq<Event>)
    requires Pristine(s.image) && s.messages == []
    ensures forall m :: m in Run(cfg, s, es).messages ==> IsOfPoint(s.image, m)
  {
    hide Pristine, IsOfPoint, Step;
    if es != [] {
      var front, e := es[..|es| - 1], es[|es| - 1];
      var t := Run(cfg, s, front);
      MessagesAreOfPoints(cfg, s, front);
      StepOfMessages(cfg, t, e);
      if ObjectOf(e).Some? {
        forall m | m in Messages(t.image, ObjectOf(e).value, e.now)
          ensures IsOfPoint(s.image, m)
        {
          MessageIsOfPoint(cfg, s, front, ObjectOf(e).value, e.now, m);
        }
      }
    }
  }

  lemma MessageIsOfPoint(cfg: Config, s: State, es: seq<Event>, obj: DataObject, now: nat, m: Message)
    requires Pristine(s.image) && m in Messages(Run(cfg, s, es).image, obj, now)
    ensures IsOfPoint(s.image, m)
  {
    hide Run, ImageAfter, IdealAfter, Pristine, WellFormed, SamePoints, ImageStep, Messages;
    var image := Run(cfg, s, es).image;
    ImageFollowsReadings(cfg, s, es);
    UnionDiscipline(image, obj, now);
    assert |Messages(image, obj, now)| > 0;
    assert Accepted(PointAt(image, obj.ca, obj.ioa).value, obj);
    ImageIsHistory(s.image, Readings(es), obj.ca, obj.ioa);
    SamePointsAt(image, ImageAfter(s.image, Readings(es)), obj.ca, obj.ioa);
  }

  lemma SamePointsAt(a: Image, b: Image, ca: int, ioa: int)
    requires SamePoints(a, b)
    ensures PointAt(a, ca, ioa) == PointAt(b, ca, ioa)
  {
  }

  /** For a given table, exactly when no run sends an empty spontaneous message: every point that a
      reading can address fits a message with its time. */
  lemma NoEmptyMessageIff(cfg: Config, s: State)
    requires Pristine(s.image) && s.messages == []
    ensures (forall es, m :: m in Run(cfg, s, es).messages ==> Carried(cfg.limits, m) == [m.info]) <==>
              forall ca, ioa :: IsReachable(s.image, ca, ioa) ==>
                TaggedFits(cfg.limits, PointAt(s.image, ca, ioa).value.dataType)
  {
    hide Run, Pristine, Packing.Fits, TaggedFits, IsMessageTypeMatching, PointAt;
    if forall ca, ioa :: IsReachable(s.image, ca, ioa) ==>
         TaggedFits(cfg.limits, PointAt(s.image, ca, ioa).value.dataType) {
      forall es, m | m in Run(cfg, s, es).messages
        ensures Carried(cfg.limits, m) == [m.info]
      {
        MessagesAreOfPoints(cfg, s, es);
        assert IsOfPoint(s.image, m);
        FitsByType(cfg.limits, PointAt(s.image, m.ca, m.info.ioa).value.dataType, m.info);
      }
    } else {
      var ca, ioa :| IsReachable(s.image, ca, ioa) && !TaggedFits(cfg.limits, PointAt(s.image, ca, ioa).value.dataType);
      var es, m := SendsTagged(cfg, s, ca, ioa);
      FitsByType(cfg.limits, PointAt(s.image, ca, ioa).value.dataType, m.info);
      assert Carried(cfg.limits, m) == [];
    }
  }

  /** A run that sends a reachable point with its time. */
  lemma SendsTagged(cfg: Config, s: State, ca: int, ioa: int) returns (es: seq<Event>, m: Message)
    requires Pristine(s.image) && s.messages == [] && IsReachable(s.image, ca, ioa)
    ensures m in Run(cfg, s, es).messages && m.info.typeId == TaggedType(PointAt(s.image, ca, ioa).value.dataType)
    ensures IsMessageTypeMatching(PointAt(s.image, ca, ioa).value.dataType, m.info.typeId)
  {
    var p := PointAt(s.image, ca, ioa).value;
    assert IsAt(p, ca, ioa);
    PristineIsWellFormed(s.image);
    var attributes := TaggedReading(p);
    hide Run, PointAt, Accepted, IsSpontaneous, SouthReadings.Collected, Pristine, WellFormed;
    var e := SouthDatapoint("", DataObjectPoint(attributes), true, 0);
    m := SendsAccepted(cfg, s, e, SouthReadings.Collected(attributes));
    es := [e];
  }

  lemma TaggedReading(p: Point) returns (attributes: seq<SouthReadings.Attribute>)
    requires p.ca != -1 && p.ioa != -1 && p.dataType != Unsupported
    ensures var obj := SouthReadings.Collected(attributes);
            obj.ca == p.ca && obj.ioa == p.ioa && obj.typeId == TaggedType(p.dataType) && Accepted(p, obj)
            && IsSpontaneous(obj.cot)
    ensures IsMessageTypeMatching(p.dataType, TaggedType(p.dataType))
  {
    attributes := [SouthReadings.DoCa(p.ca), SouthReadings.DoIoa(p.ioa), SouthReadings.DoCot(COT_SPONTANEOUS),
                   SouthReadings.DoType(TaggedType(p.dataType))];
    CollectsFour(attributes);
    hide SouthReadings.Collected;
  }

  /** An accepted spontaneous reading sends its type. */
  lemma SendsAccepted(cfg: Config, s: State, e: Event, obj: DataObject) returns (m: Message)
    requires WellFormed(s.image) && e.SouthDatapoint? && ObjectOf(e) == Some(obj) && IsSpontaneous(obj.cot)
    requires PointAt(s.image, obj.ca, obj.ioa).Some? && Accepted(PointAt(s.image, obj.ca, obj.ioa).value, obj)
    ensures m in Run(cfg, s, [e]).messages && m.info.typeId == obj.typeId
  {
    hide Step, Messages, ImageStep, WellFormed, ObjectOf, PointAt, Accepted;
    UnionDiscipline(s.image, obj, e.now);
    assert |Messages(s.image, obj, e.now)| == 1;
    m := Messages(s.image, obj, e.now)[0];
    assert m in Messages(s.image, obj, e.now);
    StepOfMessages(cfg, s, e);
    assert [e][..0] == [] && Run(cfg, s, []) == s && Run(cfg, s, [e]) == Step(cfg, s, e);
  }

  lemma CollectsFour(attributes: seq<SouthReadings.Attribute>)
    requires |attributes| == 4 && attributes[0].DoCa? && attributes[1].DoIoa?
    requires attributes[2].DoCot? && attributes[3].DoType?
    ensures var obj := SouthReadings.Collected(attributes);
            obj.ca == attributes[0].i && obj.ioa == attributes[1].i && obj.cot == attributes[2].i
            && obj.typeId == attributes[3].i
  {
  }

  /** Over all tables the worst point decides, a short float. */
  lemma NoEmptyMessageAtAllIff(cfg: Config)
    ensures (forall dataType :: TaggedFits(cfg.limits, dataType)) <==>
              16 + cfg.limits.caSize + cfg.limits.ioaSize <= cfg.limits.maxAsdu
  {
    assert TaggedFits(cfg.limits, Short) <==> 16 + cfg.limits.caSize + cfg.limits.ioaSize <= cfg.limits.maxAsdu;
  }
}
