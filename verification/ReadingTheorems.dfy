/** What a data object from the south side does to the process image, over its attributes: which point
    takes it, what that point then holds, and what is sent on. */
module ReadingTheorems {
  import opened Machine
  import opened Protocol
  import opened Points
  import opened ProcessImage
  import opened ServerSpec
  import opened ServerTheorems
  import GiGroups
  import Interrogation
  import SouthReadings
  import Terms

  // ---------------------------------------------------------------- acceptance

  /** A data object with these numbers, taken while the protocol server runs. */
  ghost predicate IsDataObject(e: Event, ca: int, ioa: int, cot: int, typeId: int) {
    && e.SouthDatapoint? && e.slaveRunning && e.point.DataObjectPoint?
    && Terms.CaIs(e.point.attributes, ca) && Terms.IoaIs(e.point.attributes, ioa)
    && Terms.CotIs(e.point.attributes, cot) && Terms.TypeIs(e.point.attributes, typeId)
  }

  /** It is taken for the point: complete, no feedback, of its addresses, under a type that fits. */
  ghost predicate IsTakenFor(p: Point, e: Event) {
    exists cot, typeId ::
      && IsDataObject(e, p.ca, p.ioa, cot, typeId) && p.ca != -1 && p.ioa != -1
      && cot !in {7, 10, 45} && Terms.ReadingFits(p.dataType, typeId)
  }

  /** A value of the kind that a point stores. */
  predicate IsKindFor(dataType: DataType, v: Value) {
    match dataType
    case SP => v.IntValue?
    case DP => v.IntValue?
    case Scaled => v.IntValue?
    case StepPos => v.StepText?
    case Normalized => v.FloatValue?
    case Short => v.FloatValue?
    case Unsupported => false
  }

  /** It carries a value of that kind. */
  ghost predicate CarriesValue(p: Point, e: Event, v: Value)
    requires e.SouthDatapoint? && e.point.DataObjectPoint?
  {
    IsKindFor(p.dataType, v) && Terms.ValueIs(e.point.attributes, Some(v))
  }

  lemma TakenIff(p: Point, e: Event)
    ensures IsTakenFor(p, e) <==> ObjectOf(e).Some? && Accepted(p, ObjectOf(e).value)
  {
    if e.SouthDatapoint? && e.slaveRunning && e.point.DataObjectPoint? {
      var obj := SouthReadings.Collected(e.point.attributes);
      Terms.CollectedIs(e.point.attributes);
      Terms.TypesByNumber(obj.typeId, p.dataType, false);
      hide SouthReadings.Collected, Terms.CaIs, Terms.IoaIs, Terms.CotIs, Terms.TypeIs, Terms.ReadingFits,
           IsReadingType, TypeIdToDataType;
      if Accepted(p, obj) {
        assert IsDataObject(e, p.ca, p.ioa, obj.cot, obj.typeId);
      }
      if IsTakenFor(p, e) {
        var cot, typeId :|
          && IsDataObject(e, p.ca, p.ioa, cot, typeId) && p.ca != -1 && p.ioa != -1
          && cot !in {7, 10, 45} && Terms.ReadingFits(p.dataType, typeId);
        Terms.CollectedAs(e.point.attributes, p.ca, p.ioa, cot, typeId);
        Terms.TypesByNumber(-1, p.dataType, false);
        FitsIsNotMinusOne(p.dataType, typeId);
      }
    }
  }

  lemma FitsIsNotMinusOne(dataType: DataType, typeId: int)
    requires Terms.ReadingFits(dataType, typeId)
    ensures typeId != -1
  {
  }

  // ---------------------------------------------------------------- content

  /** The field of a point's type with a value stored in it: modulo 2, modulo 4, and for a step position
      and a scaled value the one number of seven, or sixteen, signed bits that differs by whole periods. */
  predicate Stores(dataType: DataType, content: Content, v: Value) {
    match dataType
    case SP => content.SpMember? && v.IntValue? && content.value == v.i % 2
    case DP => content.DpMember? && v.IntValue? && content.value == v.i % 4
    case StepPos =>
      content.StepMember? && v.StepText? && content.transient == v.transient
      && -64 <= content.position < 64 && (v.position - content.position) % 128 == 0
    case Normalized => content.NormalizedMember? && v.FloatValue? && content.float == v.f
    case Scaled =>
      content.ScaledMember? && v.IntValue? && -32768 <= content.value < 32768 && (v.i - content.value) % 65536 == 0
    case Short => content.ShortMember? && v.FloatValue? && content.float == v.f
    case Unsupported => false
  }

  /** The same with nothing stored yet. */
  predicate StoresZero(dataType: DataType, content: Content) {
    match dataType
    case SP => content.SpMember? && content.value == 0
    case DP => content.DpMember? && content.value == 0
    case StepPos => content.StepMember? && content.position == 0 && !content.transient
    case Normalized => content.NormalizedMember? && content.float == Float(0)
    case Scaled => content.ScaledMember? && content.value == 0
    case Short => content.ShortMember? && content.float == Float(0)
    case Unsupported => false
  }

  /** The place of the last event taken for a point, -1 if there is none. */
  ghost function LastTaken(p: Point, es: seq<Event>): (n: int)
    ensures -1 <= n < |es| && (n >= 0 ==> IsTakenFor(p, es[n]))
    ensures forall k :: n < k < |es| ==> !IsTakenFor(p, es[k])
  {
    if es == [] then -1
    else if IsTakenFor(p, es[|es| - 1]) then |es| - 1
    else LastTaken(p, es[..|es| - 1])
  }

  ghost predicate IsTakenWithValue(p: Point, e: Event) {
    IsTakenFor(p, e) && exists v :: CarriesValue(p, e, v)
  }

  /** The place of the last one that carried a value of the right kind. */
  ghost function LastValued(p: Point, es: seq<Event>): (n: int)
    ensures -1 <= n < |es| && (n >= 0 ==> IsTakenWithValue(p, es[n]))
    ensures forall k :: n < k < |es| ==> !IsTakenWithValue(p, es[k])
  {
    if es == [] then -1
    else if IsTakenWithValue(p, es[|es| - 1]) then |es| - 1
    else LastValued(p, es[..|es| - 1])
  }

  /** The quality that the events leave: what the attributes of the last one taken raise, or invalid and
      non-topical. */
  ghost predicate QualityFollows(p: Point, content: Content, es: seq<Event>)
    requires Holds(content, p.dataType)
  {
    var n := LastTaken(p, es);
    if n == -1 then content.quality == Quality(true, false, false, false, true)
    else Terms.QualityIs(es[n].point.attributes, content.quality)
  }

  /** The value that the events leave: the last one carried, as the field stores it, or zero. */
  ghost predicate ValueFollows(p: Point, content: Content, es: seq<Event>) {
    var n := LastValued(p, es);
    if n == -1 then StoresZero(p.dataType, content)
    else exists v :: CarriesValue(p, es[n], v) && Stores(p.dataType, content, v)
  }

  lemma InitialInWords(dataType: DataType)
    requires dataType != Unsupported
    ensures var content := InitialContent(dataType);
            Holds(content, dataType) && StoresZero(dataType, content)
            && content.quality == Quality(true, false, false, false, true)
  {
  }

  /** One accepted data object: its quality is written, and its value if it is of the right kind. */
  lemma UpdateInWords(p: Point, obj: DataObject)
    requires WellTyped(p) && IsReadingType(obj.typeId) && TypeIdToDataType(obj.typeId) == p.dataType
    ensures var content := UpdatedContent(p.content, obj.typeId, obj.value, obj.quality);
            && Holds(content, p.dataType) && content.quality == obj.quality
            && if obj.value.Some? && IsKindFor(p.dataType, obj.value.value)
               then Stores(p.dataType, content, obj.value.value)
               else content == p.content.(quality := content.quality)
  {
  }

  lemma SameValueStores(dataType: DataType, content: Content, content': Content, v: Value)
    requires Holds(content, dataType) && !content'.NoMember? && content' == content.(quality := content'.quality)
    ensures Stores(dataType, content', v) <==> Stores(dataType, content, v)
    ensures StoresZero(dataType, content') <==> StoresZero(dataType, content)
    ensures Holds(content', dataType)
  {
  }

  lemma LastNext(p: Point, es: seq<Event>, e: Event)
    ensures LastTaken(p, es + [e]) == if IsTakenFor(p, e) then |es| else LastTaken(p, es)
    ensures LastValued(p, es + [e]) == if IsTakenWithValue(p, e) then |es| else LastValued(p, es)
    ensures forall n :: 0 <= n < |es| ==> (es + [e])[n] == es[n]
  {
    hide IsTakenFor, IsTakenWithValue;
    assert (es + [e])[..|es|] == es;
  }

  /** One more event. */
  lemma EventInWords(p: Point, q: Point, es: seq<Event>, e: Event, content: Content)
    requires WellTyped(q) && q.dataType == p.dataType
    requires QualityFollows(p, q.content, es) && ValueFollows(p, q.content, es)
    requires IsTakenFor(p, e) <==> ObjectOf(e).Some? && Accepted(p, ObjectOf(e).value)
    requires content == if !IsTakenFor(p, e) then q.content
                        else var obj := ObjectOf(e).value;
                             UpdatedContent(q.content, obj.typeId, obj.value, obj.quality)
    ensures Holds(content, p.dataType)
    ensures QualityFollows(p, content, es + [e]) && ValueFollows(p, content, es + [e])
  {
    LastNext(p, es, e);
    hide LastTaken, LastValued;
    if IsTakenFor(p, e) {
      var obj := ObjectOf(e).value;
      UpdateInWords(q, obj);
      Terms.CollectedIs(e.point.attributes);
      hide SouthReadings.Collected, UpdatedContent, Terms.ValueIs, Terms.QualityIs, Stores, StoresZero, IsReadingType,
           TypeIdToDataType;
      TakenValue(p, e, obj);
      if obj.value.Some? && IsKindFor(p.dataType, obj.value.value) {
        assert CarriesValue(p, e, obj.value.value);
      } else {
        KeepsValue(p, q.content, content, es);
      }
    } else {
      hide IsTakenFor;
      assert !IsTakenWithValue(p, e);
      hide Terms.QualityIs, CarriesValue, Stores, StoresZero, IsTakenWithValue;
    }
  }

  lemma TakenValue(p: Point, e: Event, obj: DataObject)
    requires e.SouthDatapoint? && e.point.DataObjectPoint? && Terms.ValueIs(e.point.attributes, obj.value)
    ensures (exists v :: CarriesValue(p, e, v)) <==> obj.value.Some? && IsKindFor(p.dataType, obj.value.value)
  {
    if obj.value.Some? && IsKindFor(p.dataType, obj.value.value) {
      assert CarriesValue(p, e, obj.value.value);
    }
  }

  lemma KeepsValue(p: Point, content: Content, content': Content, es: seq<Event>)
    requires Holds(content, p.dataType) && !content'.NoMember? && content' == content.(quality := content'.quality)
    requires ValueFollows(p, content, es)
    ensures Holds(content', p.dataType) && ValueFollows(p, content', es)
  {
    forall v
      ensures Stores(p.dataType, content', v) <==> Stores(p.dataType, content, v)
      ensures StoresZero(p.dataType, content') <==> StoresZero(p.dataType, content)
    {
      SameValueStores(p.dataType, content, content', v);
    }
  }

  /** The process image follows the events: over every run the content of each configured point has the
      quality that the attributes of the last data object taken for it raise, and the value that the
      last one with a value of its kind carried, as its field stores it. */
  lemma {:induction false} ContentFollows(cfg: Config, s: State, es: seq<Event>, ca: int, ioa: int)
    requires IsInitial(s) && PointAt(s.image, ca, ioa).Some?
    ensures var p, q := PointAt(s.image, ca, ioa).value, PointAt(Run(cfg, s, es).image, ca, ioa);
            && q.Some? && q.value.dataType == p.dataType && Holds(q.value.content, p.dataType)
            && QualityFollows(p, q.value.content, es) && ValueFollows(p, q.value.content, es)
  {
    var p := PointAt(s.image, ca, ioa).value;
    assert IsAt(p, ca, ioa) && p.content == InitialContent(p.dataType);
    if es == [] {
      InitialInWords(p.dataType);
    } else {
      hide Step, IsInitial, IsTakenFor, QualityFollows, ValueFollows;
      var front, e := es[..|es| - 1], es[|es| - 1];
      assert es == front + [e];
      ContentFollows(cfg, s, front, ca, ioa);
      var t := Run(cfg, s, front);
      var q := PointAt(t.image, ca, ioa).value;
      TakenIff(p, e);
      PointAfter(cfg, s, front, e, ca, ioa);
      EventInWords(p, q, front, e, PointAt(Run(cfg, s, es).image, ca, ioa).value.content);
    }
  }

  /** What one step of a run does to one point. */
  lemma PointAfter(cfg: Config, s: State, front: seq<Event>, e: Event, ca: int, ioa: int)
    requires IsInitial(s) && PointAt(s.image, ca, ioa).Some?
    ensures var t := Run(cfg, s, front);
            var p, q := PointAt(s.image, ca, ioa).value, PointAt(t.image, ca, ioa);
            var u := PointAt(Step(cfg, t, e).image, ca, ioa);
            && q.Some? && WellTyped(q.value) && q.value.dataType == p.dataType && u.Some?
            && u.value.dataType == p.dataType
            && u.value.content == if ObjectOf(e).Some? && Accepted(p, ObjectOf(e).value)
                                  then var obj := ObjectOf(e).value;
                                       UpdatedContent(q.value.content, obj.typeId, obj.value, obj.quality)
                                  else q.value.content
  {
    var t := Run(cfg, s, front);
    ProcessImageEqualsHistory(cfg, s, front, ca, ioa);
    ImageFollowsReadings(cfg, s, front);
    assert IsAt(PointAt(t.image, ca, ioa).value, ca, ioa);
    assert IsAt(PointAt(s.image, ca, ioa).value, ca, ioa);
    StepOfImage(cfg, t, e);
    hide Step, Run, IsInitial, ContentFromHistory, UpdatedContent, ObjectOf, IdealAfter, ImageAfter;
    if ObjectOf(e).Some? {
      StepAt(t.image, ObjectOf(e).value, e.now, ca, ioa);
    } else if e.CommandReceived? {
      TouchKeepsPoints(t.image, e.command.ca, 0);
    }
  }

  /** So an interrogation reports nothing else: every object of an answer, in every reachable state, has
      the content that the events leave of its point. */
  lemma InterrogationSays(cfg: Config, s: State, es: seq<Event>, ca: int, qoi: int, o: InfoObject)
    requires IsInitial(s) && ca in s.image && 20 <= qoi
    requires ca in Run(cfg, s, es).image && o in Interrogation.RowObjects(Run(cfg, s, es).image[ca], qoi)
    ensures PointAt(s.image, ca, o.ioa).Some?
    ensures var p := PointAt(s.image, ca, o.ioa).value;
            Holds(o.content, p.dataType) && QualityFollows(p, o.content, es) && ValueFollows(p, o.content, es)
  {
    hide Run, IsInitial, Interrogation.RowObjects, ContentFromHistory, QualityFollows, ValueFollows, GiGroups.IsAsked;
    InterrogationReportsTheReadings(cfg, s, es, ca, qoi);
    ProcessImageEqualsHistory(cfg, s, es, ca, o.ioa);
    ContentFollows(cfg, s, es, ca, o.ioa);
  }

  // ---------------------------------------------------------------- what is sent on

  /** The time of a spontaneous object: none for a type without tag; else the data object's own, or the
      time at which it was handled. */
  ghost predicate TimeFollows(e: Event, typeId: int, ts: Option<Timestamp>)
    requires e.SouthDatapoint? && e.point.DataObjectPoint?
  {
    if typeId < 30 then ts == None
    else if exists k :: 0 <= k < |e.point.attributes| && e.point.attributes[k].DoTs?
    then ts.Some? && Terms.TimeIs(e.point.attributes, ts)
    else ts == Some(Timestamp(e.now, false, false, false))
  }

  lemma StampInWords(e: Event, obj: DataObject, typeId: int)
    requires e.SouthDatapoint? && e.point.DataObjectPoint? && Terms.TimeIs(e.point.attributes, obj.ts)
    requires IsReadingType(typeId)
    ensures TimeFollows(e, typeId, if HasTimeTag(typeId) then Some(Points.StampOf(obj.ts, e.now)) else None)
  {
    Terms.TypesByNumber(typeId, SP, false);
    hide IsReadingType, HasTimeTag, Terms.Says;
    if exists k :: 0 <= k < |e.point.attributes| && e.point.attributes[k].DoTs? {
      assert obj.ts.Some?;
    } else {
      assert obj.ts == None;
    }
  }

  /** What a data object sends on, in every reachable state: one message if it is taken for a point and
      its cause is periodic, background scan, spontaneous or return information, and none otherwise. The
      message has its cause, type and addresses, the content that the point then holds, and its time. */
  lemma DataObjectIsSentOn(cfg: Config, s: State, es: seq<Event>, e: Event, ca: int, ioa: int, cot: int, typeId: int)
    requires IsInitial(s) && IsDataObject(e, ca, ioa, cot, typeId)
    ensures var t := Run(cfg, s, es);
            var p, u := PointAt(s.image, ca, ioa), Step(cfg, t, e);
            if p.Some? && IsTakenFor(p.value, e) && cot in {1, 2, 3, 11, 12} then
              exists m ::
                && u.messages == t.messages + [m] && m.cot == cot && m.ca == ca
                && m.info.typeId == typeId && m.info.ioa == ioa
                && PointAt(u.image, ca, ioa).Some? && m.info.content == PointAt(u.image, ca, ioa).value.content
                && TimeFollows(e, typeId, m.info.ts)
            else u.messages == t.messages
  {
    var t, obj := Run(cfg, s, es), ObjectOf(e).value;
    Terms.CollectedIs(e.point.attributes);
    Terms.CollectedAs(e.point.attributes, ca, ioa, cot, typeId);
    assert obj.ca == ca && obj.ioa == ioa && obj.cot == cot && obj.typeId == typeId;
    StepOfMessages(cfg, t, e);
    StepOfImage(cfg, t, e);
    ImageFollowsReadings(cfg, s, es);
    UnionDiscipline(t.image, obj, e.now);
    ProcessImageEqualsHistory(cfg, s, es, ca, ioa);
    var p := PointAt(s.image, ca, ioa);
    if p.Some? {
      assert IsAt(p.value, ca, ioa);
      TakenIff(p.value, e);
    }
    SpontaneousByNumber(cot);
    hide Step, Run, IsInitial, ImageStep, Messages, IsSpontaneous, IdealAfter, ImageAfter, SouthReadings.Collected,
         Terms.CaIs, Terms.IoaIs, Terms.CotIs, Terms.TypeIs, TimeFollows, Terms.TimeIs, WellFormed, IsTakenFor,
         ContentFromHistory, SamePoints;
    if p.Some? && IsTakenFor(p.value, e) && cot in {1, 2, 3, 11, 12} {
      AcceptedAlike(p.value, PointAt(t.image, ca, ioa).value, obj);
      var m := Messages(t.image, obj, e.now)[0];
      assert m in Messages(t.image, obj, e.now) && Messages(t.image, obj, e.now) == [m];
      StampInWords(e, obj, typeId);
      PointAfter(cfg, s, es, e, ca, ioa);
    } else if PointAt(t.image, ca, ioa).Some? {
      AcceptedAlike(p.value, PointAt(t.image, ca, ioa).value, obj);
    }
  }

  lemma AcceptedAlike(p: Point, q: Point, obj: DataObject)
    requires SameDefinition(p, q)
    ensures Accepted(p, obj) <==> Accepted(q, obj)
  {
  }

  lemma SpontaneousByNumber(cot: int)
    ensures IsSpontaneous(cot) <==> cot in {1, 2, 3, 11, 12}
  {
  }
}
