/** The table of points as values: lookups that insert, readings that update, and the history
    that a point's content can be computed from. */
module ProcessImage {
  import opened Machine
  import opened Protocol
  import opened Points

  /** Common address to object address to a point or a null cell. */
  type Image = map<int, map<int, Option<Point>>>

  /** The point of a cell; null cells and missing ones look the same. */
  function PointAt(image: Image, ca: int, ioa: int): Option<Point> {
    if ca in image && ioa in image[ca] then image[ca][ioa] else None
  }

  /** A row of the table; a missing one looks empty. */
  function RowAt(image: Image, ca: int): map<int, Option<Point>> {
    if ca in image then image[ca] else map[]
  }

  /** `table[ca]`: inserts an empty row. */
  function TouchRow(image: Image, ca: int): Image {
    if ca in image then image else image[ca := map[]]
  }

  /** `table[ca][ioa]`: inserts an empty row, then a null cell. */
  function Touch(image: Image, ca: int, ioa: int): Image {
    var rows := TouchRow(image, ca);
    if ioa in rows[ca] then rows else rows[ca := rows[ca][ioa := None]]
  }

  /** Two tables with the same points in the same cells. */
  ghost predicate SamePoints(a: Image, b: Image) {
    forall ca, ioa :: PointAt(a, ca, ioa) == PointAt(b, ca, ioa)
  }

  lemma TouchKeepsPoints(image: Image, ca: int, ioa: int)
    ensures SamePoints(Touch(image, ca, ioa), image) && SamePoints(TouchRow(image, ca), image)
    ensures Touch(image, ca, ioa).Keys == TouchRow(image, ca).Keys == image.Keys + {ca}
    ensures Touch(image, ca, ioa)[ca].Keys == TouchRow(image, ca)[ca].Keys + {ioa}
  {
  }

  /** A data object of a reading once its attributes are collected. */
  datatype DataObject = DataObject(ca: int, ioa: int, cot: int, typeId: int, value: Option<Value>,
                                   quality: Quality, negative: bool, ts: Option<Timestamp>)

  predicate IsFeedback(obj: DataObject) {
    obj.cot == COT_ACTIVATION_CON || obj.cot == COT_ACTIVATION_TERMINATION
  }

  /** The attributes a process value cannot do without. */
  predicate IsComplete(obj: DataObject) {
    obj.ca != -1 && obj.ioa != -1 && obj.cot != COT_UNKNOWN_COT && obj.typeId != -1
  }

  /** Causes under which an accepted reading is also sent on. */
  predicate IsSpontaneous(cot: int) {
    cot == COT_PERIODIC || cot == COT_SPONTANEOUS || cot == COT_RETURN_INFO_REMOTE ||
    cot == COT_RETURN_INFO_LOCAL || cot == COT_BACKGROUND_SCAN
  }

  /** A spontaneous message handed to the library, and the object offered to it. */
  datatype Message = Message(cot: int, ca: int, info: InfoObject)

  function Stored(image: Image, ca: int, ioa: int, p: Point): Image
    requires ca in image
  {
    image[ca := image[ca][ioa := Some(p)]]
  }

  /** What a data object that is not feedback does to the table. */
  function ImageStep(image: Image, obj: DataObject, now: int): Image {
    if IsFeedback(obj) || !IsComplete(obj) then image
    else
      var touched := Touch(image, obj.ca, obj.ioa);
      var cell := touched[obj.ca][obj.ioa];
      if cell.Some? && IsMessageTypeMatching(cell.value.dataType, obj.typeId) then
        Stored(touched, obj.ca, obj.ioa,
               Updated(cell.value, obj.typeId, obj.value, obj.quality, obj.ts, now))
      else touched
  }

  /** The same without inserting: a reading changes the point that accepts it, and nothing else. */
  function IdealStep(image: Image, obj: DataObject, now: int): Image {
    var p := PointAt(image, obj.ca, obj.ioa);
    if p.Some? && Accepted(p.value, obj) then
      Stored(image, obj.ca, obj.ioa, Updated(p.value, obj.typeId, obj.value, obj.quality, obj.ts, now))
    else image
  }

  /** What a data object sends on. */
  function Messages(image: Image, obj: DataObject, now: int): seq<Message> {
    var p := PointAt(image, obj.ca, obj.ioa);
    if IsFeedback(obj) || !IsComplete(obj) || p.None? || !IsMessageTypeMatching(p.value.dataType, obj.typeId)
       || !IsSpontaneous(obj.cot) then []
    else
      var p' := Updated(p.value, obj.typeId, obj.value, obj.quality, obj.ts, now);
      var info := EncodeSpontaneous(p', obj.typeId);
      if info.Some? then [Message(obj.cot, p'.ca, info.value)] else []
  }

  /** Every point sits in the cell of its own addresses and its union fits its type. */
  ghost predicate WellFormed(image: Image) {
    forall ca, ioa :: PointAt(image, ca, ioa).Some? ==> IsAt(PointAt(image, ca, ioa).value, ca, ioa)
  }

  predicate IsAt(p: Point, ca: int, ioa: int) {
    p.ca == ca && p.ioa == ioa && WellTyped(p)
  }

  // ---------------------------------------------------------------- history

  /** A data object handled at a time while the protocol server was running. */
  datatype Reading = Reading(obj: DataObject, now: int)

  function ImageAfter(image: Image, history: seq<Reading>): Image {
    if history == [] then image
    else ImageStep(ImageAfter(image, history[..|history| - 1]),
                   history[|history| - 1].obj, history[|history| - 1].now)
  }

  function IdealAfter(image: Image, history: seq<Reading>): Image {
    if history == [] then image
    else IdealStep(IdealAfter(image, history[..|history| - 1]),
                   history[|history| - 1].obj, history[|history| - 1].now)
  }

  /** Whether a reading is accepted for a point. */
  predicate Accepted(p: Point, obj: DataObject) {
    !IsFeedback(obj) && IsComplete(obj) && obj.ca == p.ca && obj.ioa == p.ioa
    && IsReadingType(obj.typeId) && TypeIdToDataType(obj.typeId) == p.dataType
  }

  /** Whether a value is of the type that a point of this data type stores. */
  predicate HasValueFor(dataType: DataType, value: Option<Value>) {
    value.Some? &&
    match dataType
    case SP => value.value.IntValue?
    case DP => value.value.IntValue?
    case Scaled => value.value.IntValue?
    case StepPos => value.value.StepText?
    case Normalized => value.value.FloatValue?
    case Short => value.value.FloatValue?
    case Unsupported => false
  }

  /** Position of the last accepted reading of a point, -1 if there is none. */
  function LastAccepted(p: Point, history: seq<Reading>): (k: int)
    ensures -1 <= k < |history|
    ensures k >= 0 ==> Accepted(p, history[k].obj)
    ensures forall j :: k < j < |history| ==> !Accepted(p, history[j].obj)
  {
    if history == [] then -1
    else if Accepted(p, history[|history| - 1].obj) then |history| - 1
    else LastAccepted(p, history[..|history| - 1])
  }

  /** Position of the last accepted reading that carried a value of the right type. */
  function LastValued(p: Point, history: seq<Reading>): (k: int)
    ensures -1 <= k < |history|
    ensures k >= 0 ==> Accepted(p, history[k].obj) && HasValueFor(p.dataType, history[k].obj.value)
    ensures forall j :: k < j < |history| ==>
              !(Accepted(p, history[j].obj) && HasValueFor(p.dataType, history[j].obj.value))
  {
    if history == [] then -1
    else
      var obj := history[|history| - 1].obj;
      if Accepted(p, obj) && HasValueFor(p.dataType, obj.value) then |history| - 1
      else LastValued(p, history[..|history| - 1])
  }

  /** A value as the field of the data type stores it: modulo 2, modulo 4, signed seven bits,
      signed sixteen bits, or the float itself. */
  function Reduced(dataType: DataType, value: Value, quality: Quality): Content
    requires HasValueFor(dataType, Some(value))
  {
    match dataType
    case SP => SpMember(value.i % 2, quality)
    case DP => DpMember(value.i % 4, quality)
    case StepPos => StepMember(ToInt7(value.position), value.transient, quality)
    case Normalized => NormalizedMember(value.f, quality)
    case Scaled => ScaledMember(ToInt16(value.i), quality)
    case Short => ShortMember(value.f, quality)
  }

  /** What a point must hold, computed from the readings alone. */
  function ContentFromHistory(p: Point, history: seq<Reading>): Content
    requires p.dataType != Unsupported
  {
    var a, v := LastAccepted(p, history), LastValued(p, history);
    var quality := if a == -1 then INVALID_NON_TOPICAL else history[a].obj.quality;
    if v == -1 then WithQuality(InitialContent(p.dataType), p.dataType, quality)
    else Reduced(p.dataType, history[v].obj.value.value, quality)
  }

  /** Everything about a point but its content and timestamp. */
  predicate SameDefinition(p: Point, p': Point) {
    p.ca == p'.ca && p.ioa == p'.ioa && p.dataType == p'.dataType && p.isCommand == p'.isCommand
    && p.giGroups == p'.giGroups
  }

  /** The table before any reading: every point is placed and initial. */
  ghost predicate Pristine(image: Image) {
    forall ca, ioa :: PointAt(image, ca, ioa).Some? ==>
      var p := PointAt(image, ca, ioa).value;
      IsAt(p, ca, ioa) && p.content == InitialContent(p.dataType)
  }

  lemma StepAt(image: Image, obj: DataObject, now: int, ca: int, ioa: int)
    ensures var p, p' := PointAt(image, ca, ioa), PointAt(ImageStep(image, obj, now), ca, ioa);
            && p'.Some? == p.Some?
            && (p.Some? ==> p' == if !IsFeedback(obj) && IsComplete(obj) && obj.ca == ca && obj.ioa == ioa
                                     && IsMessageTypeMatching(p.value.dataType, obj.typeId)
                                  then Some(Updated(p.value, obj.typeId, obj.value, obj.quality, obj.ts, now))
                                  else p)
  {
  }

  lemma LastOfAppend(p: Point, history: seq<Reading>, r: Reading)
    ensures LastAccepted(p, history + [r])
         == if Accepted(p, r.obj) then |history| else LastAccepted(p, history)
    ensures LastValued(p, history + [r])
         == if Accepted(p, r.obj) && HasValueFor(p.dataType, r.obj.value) then |history| else LastValued(p, history)
  {
    assert (history + [r])[..|history|] == history;
  }

  /** On tables with the same points a reading leaves the same points, whether it inserts or not. */
  lemma StepKeepsSamePoints(image: Image, ideal: Image, obj: DataObject, now: int)
    requires WellFormed(image) && SamePoints(image, ideal)
    ensures SamePoints(ImageStep(image, obj, now), IdealStep(ideal, obj, now))
    ensures SamePoints(ImageStep(image, obj, now), ImageStep(ideal, obj, now))
    ensures IdealStep(ideal, obj, now).Keys == ideal.Keys && image.Keys <= ImageStep(image, obj, now).Keys
  {
    hide UpdatedContent;
    forall ca, ioa
      ensures PointAt(ImageStep(image, obj, now), ca, ioa) == PointAt(IdealStep(ideal, obj, now), ca, ioa)
      ensures PointAt(ImageStep(image, obj, now), ca, ioa) == PointAt(ImageStep(ideal, obj, now), ca, ioa)
    {
      StepAt(image, obj, now, ca, ioa);
      StepAt(ideal, obj, now, ca, ioa);
      IdealStepAt(ideal, obj, now, ca, ioa);
      assert PointAt(image, ca, ioa) == PointAt(ideal, ca, ioa);
    }
  }

  lemma IdealStepAt(image: Image, obj: DataObject, now: int, ca: int, ioa: int)
    requires PointAt(image, ca, ioa).Some? ==> IsAt(PointAt(image, ca, ioa).value, ca, ioa)
    ensures var p, p' := PointAt(image, ca, ioa), PointAt(IdealStep(image, obj, now), ca, ioa);
            && p'.Some? == p.Some?
            && (p.Some? ==> p' == if Accepted(p.value, obj)
                                  then Some(Updated(p.value, obj.typeId, obj.value, obj.quality, obj.ts, now))
                                  else p)
  {
    hide UpdatedContent;
  }

  /** One more reading updates the computed content as it updates the stored one. */
  lemma HistoryStep(p: Point, q: Point, history: seq<Reading>, r: Reading)
    requires WellTyped(q) && SameDefinition(p, q) && q.content == ContentFromHistory(p, history)
    ensures ContentFromHistory(p, history + [r])
         == if Accepted(p, r.obj) then UpdatedContent(q.content, r.obj.typeId, r.obj.value, r.obj.quality)
            else q.content
  {
    hide LastAccepted, LastValued;
    LastOfAppend(p, history, r);
  }

  /** The process image equals the history: after any readings a cell holds the point of the
      pristine table, with content computed from the readings alone. */
  lemma {:induction false} ImageIsHistory(image: Image, history: seq<Reading>, ca: int, ioa: int)
    requires Pristine(image)
    ensures var p, p' := PointAt(image, ca, ioa), PointAt(ImageAfter(image, history), ca, ioa);
            && p'.Some? == p.Some?
            && (p.Some? ==>
                  && IsAt(p'.value, ca, ioa) && SameDefinition(p.value, p'.value)
                  && p'.value.content == ContentFromHistory(p.value, history))
  {
    if history == [] {
    } else {
      var front, r := history[..|history| - 1], history[|history| - 1];
      ImageIsHistory(image, front, ca, ioa);
      StepAt(ImageAfter(image, front), r.obj, r.now, ca, ioa);
      var p := PointAt(image, ca, ioa);
      if p.Some? {
        var q := PointAt(ImageAfter(image, front), ca, ioa).value;
        assert history == front + [r];
        HistoryStep(p.value, q, front, r);
        if Accepted(p.value, r.obj) {
          SwitchesAgree(q, r.obj.typeId, r.obj.value, r.obj.quality, r.obj.ts, r.now);
        }
      }
    }
  }

  /** The table stays well formed, so no reading ever makes an encoder read a member that is not
      held, and the spontaneous encoder's default is never reached: a spontaneous cause on a point
      that accepts the reading sends exactly one message. */
  lemma UnionDiscipline(image: Image, obj: DataObject, now: int)
    requires WellFormed(image)
    ensures WellFormed(ImageStep(image, obj, now))
    ensures forall m :: m in Messages(image, obj, now) ==> m.info.content != NoMember
    ensures var p := PointAt(image, obj.ca, obj.ioa);
            |Messages(image, obj, now)| == if p.Some? && Accepted(p.value, obj) && IsSpontaneous(obj.cot) then 1 else 0
    ensures var p := PointAt(image, obj.ca, obj.ioa);
            forall m :: m in Messages(image, obj, now) ==>
              && m.cot == obj.cot && m.ca == obj.ca
              && m.info == InfoObject(obj.typeId, obj.ioa,
                                        PointAt(ImageStep(image, obj, now), obj.ca, obj.ioa).value.content,
                                        if HasTimeTag(obj.typeId) then Some(StampOf(obj.ts, now)) else None)
  {
    var image' := ImageStep(image, obj, now);
    forall ca, ioa | PointAt(image', ca, ioa).Some?
      ensures IsAt(PointAt(image', ca, ioa).value, ca, ioa)
    {
      StepAt(image, obj, now, ca, ioa);
      var p := PointAt(image, ca, ioa).value;
      if IsMessageTypeMatching(p.dataType, obj.typeId) {
        SwitchesAgree(p, obj.typeId, obj.value, obj.quality, obj.ts, now);
      }
    }
    var p := PointAt(image, obj.ca, obj.ioa);
    if p.Some? && Accepted(p.value, obj) {
      StepAt(image, obj, now, obj.ca, obj.ioa);
      SwitchesAgree(p.value, obj.typeId, obj.value, obj.quality, obj.ts, now);
    }
  }
}
