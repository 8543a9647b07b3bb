/** The words of the theorems: numbers of the standard, and quantifiers over what is received. They use
    none of the functions that steps are made of, and no step uses them; the lemmas tie the two. */
module Terms {
  import opened Machine
  import opened Protocol
  import opened Points
  import opened SouthReadings

  // ---------------------------------------------------------------- types

  /** Command types of process information in control direction, without and with time tag. */
  predicate IsCommandType(typeId: int) {
    45 <= typeId <= 50 || 58 <= typeId <= 63
  }

  predicate IsTimedCommandType(typeId: int) {
    58 <= typeId <= 63
  }

  /** A command type for a point of this kind. */
  predicate CommandFits(dataType: DataType, typeId: int) {
    || (dataType == SP && typeId in {45, 58})
    || (dataType == DP && typeId in {46, 59})
    || (dataType == StepPos && typeId in {47, 60})
    || (dataType == Normalized && typeId in {48, 61})
    || (dataType == Scaled && typeId in {49, 62})
    || (dataType == Short && typeId in {50, 63})
  }

  /** A type under which a reading is accepted for a point of this kind. */
  predicate ReadingFits(dataType: DataType, typeId: int) {
    || (dataType == SP && typeId in {1, 30})
    || (dataType == DP && typeId in {3, 31})
    || (dataType == StepPos && typeId in {5, 32})
    || (dataType == Normalized && typeId in {9, 34})
    || (dataType == Scaled && typeId in {11, 35})
    || (dataType == Short && typeId in {13, 36})
  }

  /** A type under which a point of this kind can be configured. */
  predicate IsOfKind(dataType: DataType, typeId: int) {
    || CommandFits(dataType, typeId)
    || (dataType == SP && typeId in {1, 2, 30})
    || (dataType == DP && typeId in {3, 4, 31})
    || (dataType == StepPos && typeId in {5, 6, 32})
    || (dataType == Normalized && typeId in {9, 10, 34})
    || (dataType == Scaled && typeId in {11, 12, 35})
    || (dataType == Short && typeId in {13, 14, 36})
  }

  /** A type under which a monitoring point can be configured. */
  predicate IsMonitoringType(typeId: int) {
    1 <= typeId <= 6 || 9 <= typeId <= 14 || 30 <= typeId <= 32 || 34 <= typeId <= 36
  }

  /** The switches by their numbers. */
  lemma TypesByNumber(typeId: int, dataType: DataType, isCommand: bool)
    ensures IsSupportedCommandType(typeId) <==> IsCommandType(typeId)
    ensures IsCommandWithTimestamp(typeId) <==> IsTimedCommandType(typeId)
    ensures HasSelectBit(typeId) <==> typeId in {45, 46, 47, 58, 59, 60}
    ensures IsSupportedMonitoringType(typeId) <==> IsMonitoringType(typeId)
    ensures IsMatchingCommand(isCommand, dataType, typeId) <==> isCommand && CommandFits(dataType, typeId)
    ensures IsMessageTypeMatching(dataType, typeId) <==> ReadingFits(dataType, typeId)
    ensures IsReadingType(typeId) ==> (HasTimeTag(typeId) <==> typeId >= 30)
    ensures IsReadingType(typeId) && TypeIdToDataType(typeId) == dataType <==> ReadingFits(dataType, typeId)
    ensures IsCommandType(typeId) ==> CommandFits(TypeIdToDataType(typeId), typeId)
    ensures IsCommandType(typeId) || IsMonitoringType(typeId) ==> IsOfKind(TypeIdToDataType(typeId), typeId)
  {
  }

  /** The address that names all rows: the greatest that one octet, or two, can hold. */
  predicate NamesAll(caSize: nat, ca: int) {
    (caSize == 1 && ca == 255) || (caSize == 2 && ca == 65535)
  }

  // ---------------------------------------------------------------- times

  /** A time tag within `limit` of the clock on either side, up to whole periods of 2^32 ms. */
  predicate IsWithin(limit: int, t: nat, now: nat) {
    if t <= now then (now - t) % 0x1_0000_0000 <= limit else (t - now) % 0x1_0000_0000 <= limit
  }

  // ---------------------------------------------------------------- attributes of a data object

  /** The value of the last attribute of a name, or the default if there is none. */
  ghost predicate CaIs(attributes: seq<Attribute>, ca: int) {
    || ((forall k :: 0 <= k < |attributes| ==> !attributes[k].DoCa?) && ca == -1)
    || exists k :: 0 <= k < |attributes| && attributes[k] == DoCa(ca)
                   && forall j :: k < j < |attributes| ==> !attributes[j].DoCa?
  }

  ghost predicate IoaIs(attributes: seq<Attribute>, ioa: int) {
    || ((forall k :: 0 <= k < |attributes| ==> !attributes[k].DoIoa?) && ioa == -1)
    || exists k :: 0 <= k < |attributes| && attributes[k] == DoIoa(ioa)
                   && forall j :: k < j < |attributes| ==> !attributes[j].DoIoa?
  }

  ghost predicate CotIs(attributes: seq<Attribute>, cot: int) {
    || ((forall k :: 0 <= k < |attributes| ==> !attributes[k].DoCot?) && cot == 45)
    || exists k :: 0 <= k < |attributes| && attributes[k] == DoCot(cot)
                   && forall j :: k < j < |attributes| ==> !attributes[j].DoCot?
  }

  ghost predicate TypeIs(attributes: seq<Attribute>, typeId: int) {
    || ((forall k :: 0 <= k < |attributes| ==> !attributes[k].DoType?) && typeId == -1)
    || exists k :: 0 <= k < |attributes| && attributes[k] == DoType(typeId)
                   && forall j :: k < j < |attributes| ==> !attributes[j].DoType?
  }

  ghost predicate ValueIs(attributes: seq<Attribute>, value: Option<Value>) {
    || ((forall k :: 0 <= k < |attributes| ==> !attributes[k].DoValue?) && value == None)
    || (value.Some?
        && exists k :: 0 <= k < |attributes| && attributes[k] == DoValue(value.value)
                       && forall j :: k < j < |attributes| ==> !attributes[j].DoValue?)
  }

  /** Some attribute of the flag is not 0. */
  ghost predicate Says(attributes: seq<Attribute>, flag: Flag) {
    exists k :: 0 <= k < |attributes| && attributes[k].DoFlag? && attributes[k].flag == flag && attributes[k].i != 0
  }

  ghost predicate QualityIs(attributes: seq<Attribute>, quality: Quality) {
    && (quality.invalid <==> Says(attributes, Iv))
    && (quality.blocked <==> Says(attributes, Bl))
    && (quality.overflow <==> Says(attributes, Ov))
    && (quality.substituted <==> Says(attributes, Sb))
    && (quality.nonTopical <==> Says(attributes, Nt))
  }

  /** The time a data object comes with: that of its last `do_ts`, with its three flags. */
  ghost predicate TimeIs(attributes: seq<Attribute>, ts: Option<Timestamp>) {
    if forall k :: 0 <= k < |attributes| ==> !attributes[k].DoTs? then ts == None
    else
      && ts.Some?
      && (exists k :: 0 <= k < |attributes| && attributes[k] == DoTs(ts.value.ms)
                      && forall j :: k < j < |attributes| ==> !attributes[j].DoTs?)
      && (ts.value.invalid <==> Says(attributes, TsIv))
      && (ts.value.summerTime <==> Says(attributes, TsSu))
      && (ts.value.substituted <==> Says(attributes, TsSub))
  }

  /** What the attribute loop collects, in these words, for all lists of attributes. */
  lemma CollectedIs(attributes: seq<Attribute>)
    ensures var obj := Collected(attributes);
            && CaIs(attributes, obj.ca) && IoaIs(attributes, obj.ioa) && CotIs(attributes, obj.cot)
            && TypeIs(attributes, obj.typeId) && ValueIs(attributes, obj.value)
            && QualityIs(attributes, obj.quality) && TimeIs(attributes, obj.ts)
            && (obj.negative <==> Says(attributes, Negative))
  {
    var obj := Collected(attributes);
    CaIsInt(attributes);
    IoaIsInt(attributes);
    CotIsInt(attributes);
    TypeIsInt(attributes);
    ValueIsLast(attributes);
    TimeIsLast(attributes);
    hide LastOf, IntOf, ValueOf, CaIs, IoaIs, CotIs, TypeIs, ValueIs, TimeIs;
  }

  lemma CaIsInt(attributes: seq<Attribute>)
    ensures CaIs(attributes, IntOf(attributes, Ca, -1))
  {
    hide LastOf;
    var k := LastOf(attributes, Ca);
    assert k >= 0 ==> attributes[k] == DoCa(attributes[k].i);
    assert forall j :: k < j < |attributes| ==> NameOf(attributes[j]) != Ca;
  }

  lemma IoaIsInt(attributes: seq<Attribute>)
    ensures IoaIs(attributes, IntOf(attributes, Ioa, -1))
  {
    hide LastOf;
    var k := LastOf(attributes, Ioa);
    assert k >= 0 ==> attributes[k] == DoIoa(attributes[k].i);
    assert forall j :: k < j < |attributes| ==> NameOf(attributes[j]) != Ioa;
  }

  lemma CotIsInt(attributes: seq<Attribute>)
    ensures CotIs(attributes, IntOf(attributes, Cot, COT_UNKNOWN_COT))
  {
    hide LastOf;
    var k := LastOf(attributes, Cot);
    assert k >= 0 ==> attributes[k] == DoCot(attributes[k].i);
    assert forall j :: k < j < |attributes| ==> NameOf(attributes[j]) != Cot;
  }

  lemma TypeIsInt(attributes: seq<Attribute>)
    ensures TypeIs(attributes, IntOf(attributes, Type, -1))
  {
    hide LastOf;
    var k := LastOf(attributes, Type);
    assert k >= 0 ==> attributes[k] == DoType(attributes[k].i);
    assert forall j :: k < j < |attributes| ==> NameOf(attributes[j]) != Type;
  }

  lemma ValueIsLast(attributes: seq<Attribute>)
    ensures ValueIs(attributes, ValueOf(attributes))
  {
    hide LastOf;
    var k := LastOf(attributes, Val);
    assert k >= 0 ==> attributes[k] == DoValue(attributes[k].value);
    assert forall j :: k < j < |attributes| ==> NameOf(attributes[j]) != Val;
  }

  lemma TimeIsLast(attributes: seq<Attribute>)
    ensures TimeIs(attributes, if HasTs(attributes) then Some(SouthReadings.StampOf(attributes)) else None)
  {
    hide LastOf;
    var k := LastOf(attributes, Ts);
    assert k >= 0 ==> attributes[k] == DoTs(attributes[k].i);
    assert forall j :: k < j < |attributes| ==> NameOf(attributes[j]) != Ts;
  }

  /** The words name one value each. */
  lemma OneCaOnly(attributes: seq<Attribute>, a: int, b: int)
    requires CaIs(attributes, a) && CaIs(attributes, b)
    ensures a == b
  {
  }

  lemma OneIoaOnly(attributes: seq<Attribute>, a: int, b: int)
    requires IoaIs(attributes, a) && IoaIs(attributes, b)
    ensures a == b
  {
  }

  lemma OneCotOnly(attributes: seq<Attribute>, a: int, b: int)
    requires CotIs(attributes, a) && CotIs(attributes, b)
    ensures a == b
  {
  }

  lemma OneTypeOnly(attributes: seq<Attribute>, a: int, b: int)
    requires TypeIs(attributes, a) && TypeIs(attributes, b)
    ensures a == b
  {
  }

  /** So a data object with these attributes is collected as these numbers. */
  lemma CollectedAs(attributes: seq<Attribute>, ca: int, ioa: int, cot: int, typeId: int)
    ensures var obj := Collected(attributes);
            && (CaIs(attributes, ca) <==> obj.ca == ca) && (IoaIs(attributes, ioa) <==> obj.ioa == ioa)
            && (CotIs(attributes, cot) <==> obj.cot == cot) && (TypeIs(attributes, typeId) <==> obj.typeId == typeId)
  {
    CollectedIs(attributes);
    var obj := Collected(attributes);
    hide Collected, CaIs, IoaIs, CotIs, TypeIs;
    if CaIs(attributes, ca) {
      OneCaOnly(attributes, ca, obj.ca);
    }
    if IoaIs(attributes, ioa) {
      OneIoaOnly(attributes, ioa, obj.ioa);
    }
    if CotIs(attributes, cot) {
      OneCotOnly(attributes, cot, obj.cot);
    }
    if TypeIs(attributes, typeId) {
      OneTypeOnly(attributes, typeId, obj.typeId);
    }
  }
}
