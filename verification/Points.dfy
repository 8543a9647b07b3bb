/** A data point with its tagged union: written through one switch, read through two others. */
module Points {
  import opened Machine
  import opened Protocol

  /** The 32 bits of a `float`; what they denote plays no part here. */
  datatype Float = Float(bits: int)

  datatype Quality = Quality(invalid: bool, blocked: bool, overflow: bool, substituted: bool, nonTopical: bool)

  const GOOD := Quality(false, false, false, false, false)
  const INVALID_NON_TOPICAL := Quality(true, false, false, false, true)

  datatype Timestamp = Timestamp(ms: int, invalid: bool, summerTime: bool, substituted: bool)

  /** The union of a point. It holds the member that was last written as a whole; after a write to
      part of another member, and before any write, no member can be read from it. */
  datatype Content =
    | SpMember(value: int, quality: Quality)
    | DpMember(value: int, quality: Quality)
    | StepMember(position: int, transient: bool, quality: Quality)
    | NormalizedMember(float: Float, quality: Quality)
    | ScaledMember(value: int, quality: Quality)
    | ShortMember(float: Float, quality: Quality)
    | NoMember

  /** The member that belongs to a data type. */
  predicate Holds(content: Content, dataType: DataType) {
    match dataType
    case SP => content.SpMember?
    case DP => content.DpMember?
    case StepPos => content.StepMember?
    case Normalized => content.NormalizedMember?
    case Scaled => content.ScaledMember?
    case Short => content.ShortMember?
    case Unsupported => false
  }

  /** Reading the member of `dataType`: its bits are meaningful only if that member is held. */
  function Read(content: Content, dataType: DataType): Content {
    if Holds(content, dataType) then content else NoMember
  }

  /** The value a south reading carries. The text of a step position is taken already split at its
      comma into a number and a flag. */
  datatype Value =
    | IntValue(i: int)
    | FloatValue(f: Float)
    | StepText(position: int, transient: bool)
    | OtherValue

  datatype Point = Point(ca: int, ioa: int, dataType: DataType, isCommand: bool, giGroups: nat,
                         content: Content, ts: Option<Timestamp>)

  function InitialContent(dataType: DataType): Content {
    match dataType
    case SP => SpMember(0, INVALID_NON_TOPICAL)
    case DP => DpMember(0, INVALID_NON_TOPICAL)
    case StepPos => StepMember(0, false, INVALID_NON_TOPICAL)
    case Normalized => NormalizedMember(Float(0), INVALID_NON_TOPICAL)
    case Scaled => ScaledMember(0, INVALID_NON_TOPICAL)
    case Short => ShortMember(Float(0), INVALID_NON_TOPICAL)
    case Unsupported => NoMember
  }

  /** Writing only the quality field of one member. */
  function WithQuality(content: Content, dataType: DataType, quality: Quality): Content {
    if Holds(content, dataType) then content.(quality := quality) else NoMember
  }

  /** The update switch. A value of the wrong type leaves the value field alone; the quality is
      written in any case. */
  function UpdatedContent(content: Content, typeId: int, value: Option<Value>, quality: Quality): Content {
    if typeId == M_SP_NA_1 || typeId == M_SP_TB_1 then
      if value.Some? && value.value.IntValue? then SpMember(value.value.i % 2, quality)
      else WithQuality(content, SP, quality)
    else if typeId == M_DP_NA_1 || typeId == M_DP_TB_1 then
      if value.Some? && value.value.IntValue? then DpMember(value.value.i % 4, quality)
      else WithQuality(content, DP, quality)
    else if typeId == M_ST_NA_1 || typeId == M_ST_TB_1 then
      if value.Some? && value.value.StepText? then
        StepMember(ToInt7(value.value.position), value.value.transient, quality)
      else WithQuality(content, StepPos, quality)
    else if typeId == M_ME_NA_1 || typeId == M_ME_TD_1 then
      if value.Some? && value.value.FloatValue? then NormalizedMember(value.value.f, quality)
      else WithQuality(content, Normalized, quality)
    else if typeId == M_ME_NB_1 || typeId == M_ME_TE_1 then
      if value.Some? && value.value.IntValue? then ScaledMember(ToInt16(value.value.i), quality)
      else WithQuality(content, Scaled, quality)
    else if typeId == M_ME_NC_1 || typeId == M_ME_TF_1 then
      if value.Some? && value.value.FloatValue? then ShortMember(value.value.f, quality)
      else WithQuality(content, Short, quality)
    else content
  }

  /** The timestamp a reading leaves in the point: its own, or the time it was handled. */
  function StampOf(ts: Option<Timestamp>, now: int): Timestamp {
    if ts.Some? then ts.value else Timestamp(now, false, false, false)
  }

  function Updated(p: Point, typeId: int, value: Option<Value>, quality: Quality,
                   ts: Option<Timestamp>, now: int): Point
  {
    p.(content := UpdatedContent(p.content, typeId, value, quality),
       ts := if HasTimeTag(typeId) then Some(StampOf(ts, now)) else p.ts)
  }

  /** An encoded information object. */
  datatype InfoObject = InfoObject(typeId: int, ioa: int, content: Content, ts: Option<Timestamp>)

  /** The switch of the spontaneous path, over the type of the reading; `None` is its default. */
  function EncodeSpontaneous(p: Point, typeId: int): Option<InfoObject> {
    if typeId == M_SP_NA_1 then Some(InfoObject(typeId, p.ioa, Read(p.content, SP), None))
    else if typeId == M_SP_TB_1 then Some(InfoObject(typeId, p.ioa, Read(p.content, SP), p.ts))
    else if typeId == M_DP_NA_1 then Some(InfoObject(typeId, p.ioa, Read(p.content, DP), None))
    else if typeId == M_DP_TB_1 then Some(InfoObject(typeId, p.ioa, Read(p.content, DP), p.ts))
    else if typeId == M_ST_NA_1 then Some(InfoObject(typeId, p.ioa, Read(p.content, StepPos), None))
    else if typeId == M_ST_TB_1 then Some(InfoObject(typeId, p.ioa, Read(p.content, StepPos), p.ts))
    else if typeId == M_ME_NA_1 then Some(InfoObject(typeId, p.ioa, Read(p.content, Normalized), None))
    else if typeId == M_ME_TD_1 then Some(InfoObject(typeId, p.ioa, Read(p.content, Normalized), p.ts))
    else if typeId == M_ME_NB_1 then Some(InfoObject(typeId, p.ioa, Read(p.content, Scaled), None))
    else if typeId == M_ME_TE_1 then Some(InfoObject(typeId, p.ioa, Read(p.content, Scaled), p.ts))
    else if typeId == M_ME_NC_1 then Some(InfoObject(typeId, p.ioa, Read(p.content, Short), None))
    else if typeId == M_ME_TF_1 then Some(InfoObject(typeId, p.ioa, Read(p.content, Short), p.ts))
    else None
  }

  /** The switch of the interrogation path, over the point's own type; always without time tag. */
  function EncodeInterrogation(p: Point): Option<InfoObject> {
    match p.dataType
    case SP => Some(InfoObject(M_SP_NA_1, p.ioa, Read(p.content, SP), None))
    case DP => Some(InfoObject(M_DP_NA_1, p.ioa, Read(p.content, DP), None))
    case Normalized => Some(InfoObject(M_ME_NA_1, p.ioa, Read(p.content, Normalized), None))
    case Scaled => Some(InfoObject(M_ME_NB_1, p.ioa, Read(p.content, Scaled), None))
    case Short => Some(InfoObject(M_ME_NC_1, p.ioa, Read(p.content, Short), None))
    case StepPos => Some(InfoObject(M_ST_NA_1, p.ioa, Read(p.content, StepPos), None))
    case Unsupported => None
  }

  /** A point whose union holds the member of its type. */
  predicate WellTyped(p: Point) {
    p.dataType != Unsupported && Holds(p.content, p.dataType)
  }

  /** The three switches fit together: an accepted reading keeps the union at the member of the
      point's type, and from then on neither encoder reads another member or ends in its default. */
  lemma SwitchesAgree(p: Point, typeId: int, value: Option<Value>, quality: Quality,
                      ts: Option<Timestamp>, now: int)
    requires WellTyped(p) && IsMessageTypeMatching(p.dataType, typeId)
    ensures var p' := Updated(p, typeId, value, quality, ts, now);
            && WellTyped(p')
            && EncodeSpontaneous(p', typeId)
               == Some(InfoObject(typeId, p.ioa, p'.content,
                                  if HasTimeTag(typeId) then Some(StampOf(ts, now)) else None))
            && EncodeInterrogation(p').Some? && EncodeInterrogation(p').value.content == p'.content
            && p'.content.quality == quality
  {
  }

  /** The object kept for a point, updated in place. */
  class DataPoint {
    const ca: int
    const ioa: int
    const dataType: DataType
    const isCommand: bool
    const giGroups: nat
    var value: Content
    var ts: Option<Timestamp>

    function View(): Point
      reads this
    {
      Point(ca, ioa, dataType, isCommand, giGroups, value, ts)
    }

    constructor (ca: int, ioa: int, dataType: DataType, isCommand: bool, giGroups: nat)
      ensures View() == Point(ca, ioa, dataType, isCommand, giGroups, InitialContent(dataType), None)
    {
      this.ca := ca;
      this.ioa := ioa;
      this.dataType := dataType;
      this.isCommand := isCommand;
      this.giGroups := giGroups;
      this.value := InitialContent(dataType);
      this.ts := None;
    }

    /** The assignments of `m_updateDataPoint`, type by type. */
    method Update(typeId: int, value: Option<Value>, quality: Quality, ts: Option<Timestamp>, now: int)
      modifies this
      ensures View() == Updated(old(View()), typeId, value, quality, ts, now)
    {
      if typeId == M_SP_NA_1 || typeId == M_SP_TB_1 {
        if value.Some? && value.value.IntValue? {
          this.value := SpMember(value.value.i % 2, quality);
        }
        this.value := WithQuality(this.value, SP, quality);
        if typeId == M_SP_TB_1 {
          this.ts := Some(StampOf(ts, now));
        }
      } else if typeId == M_DP_NA_1 || typeId == M_DP_TB_1 {
        if value.Some? && value.value.IntValue? {
          this.value := DpMember(value.value.i % 4, quality);
        }
        this.value := WithQuality(this.value, DP, quality);
        if typeId == M_DP_TB_1 {
          this.ts := Some(StampOf(ts, now));
        }
      } else if typeId == M_ST_NA_1 || typeId == M_ST_TB_1 {
        if value.Some? && value.value.StepText? {
          this.value := StepMember(ToInt7(value.value.position), value.value.transient, quality);
        }
        this.value := WithQuality(this.value, StepPos, quality);
        if typeId == M_ST_TB_1 {
          this.ts := Some(StampOf(ts, now));
        }
      } else if typeId == M_ME_NA_1 || typeId == M_ME_TD_1 {
        if value.Some? && value.value.FloatValue? {
          this.value := NormalizedMember(value.value.f, quality);
        }
        this.value := WithQuality(this.value, Normalized, quality);
        if typeId == M_ME_TD_1 {
          this.ts := Some(StampOf(ts, now));
        }
      } else if typeId == M_ME_NB_1 || typeId == M_ME_TE_1 {
        if value.Some? && value.value.IntValue? {
          this.value := ScaledMember(ToInt16(value.value.i), quality);
        }
        this.value := WithQuality(this.value, Scaled, quality);
        if typeId == M_ME_TE_1 {
          this.ts := Some(StampOf(ts, now));
        }
      } else if typeId == M_ME_NC_1 || typeId == M_ME_TF_1 {
        if value.Some? && value.value.FloatValue? {
          this.value := ShortMember(value.value.f, quality);
        }
        this.value := WithQuality(this.value, Short, quality);
        if typeId == M_ME_TF_1 {
          this.ts := Some(StampOf(ts, now));
        }
      }
    }
  }
}
