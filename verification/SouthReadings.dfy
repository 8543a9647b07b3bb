/** Collecting the attributes of a data object of a reading. */
module SouthReadings {
  import opened Machine
  import opened Protocol
  import opened Points
  import opened ProcessImage

  datatype Flag = Iv | Bl | Ov | Sb | Nt | TsIv | TsSu | TsSub | Negative

  /** One named attribute. A type arrives as a name and is taken here as the number it maps to,
      0 for an unknown name. */
  datatype Attribute =
    | DoCa(i: int)
    | DoIoa(i: int)
    | DoCot(i: int)
    | DoType(i: int)
    | DoTs(i: int)
    | DoValue(value: Value)
    | DoFlag(flag: Flag, i: int)
    | DoOther

  /** Numbers and the value: the last attribute of a name counts. Position of it, -1 if none. */
  datatype Name = Ca | Ioa | Cot | Type | Ts | Val | Other

  function NameOf(a: Attribute): Name {
    match a
    case DoCa(_) => Ca
    case DoIoa(_) => Ioa
    case DoCot(_) => Cot
    case DoType(_) => Type
    case DoTs(_) => Ts
    case DoValue(_) => Val
    case _ => Other
  }

  function LastOf(attributes: seq<Attribute>, name: Name): (k: int)
    ensures -1 <= k < |attributes|
    ensures k >= 0 ==> NameOf(attributes[k]) == name
    ensures forall j :: k < j < |attributes| ==> NameOf(attributes[j]) != name
  {
    if attributes == [] then -1
    else if NameOf(attributes[|attributes| - 1]) == name then |attributes| - 1
    else LastOf(attributes[..|attributes| - 1], name)
  }

  function IntOf(attributes: seq<Attribute>, name: Name, default: int): int
    requires name in {Ca, Ioa, Cot, Type, Ts}
  {
    var k := LastOf(attributes, name);
    if k >= 0 then attributes[k].i else default
  }

  function ValueOf(attributes: seq<Attribute>): Option<Value> {
    var k := LastOf(attributes, Val);
    if k >= 0 then Some(attributes[k].value) else None
  }

  predicate HasTs(attributes: seq<Attribute>) {
    LastOf(attributes, Ts) >= 0
  }

  /** Flags: one attribute that is not 0 is enough, whatever comes after it. */
  predicate IsRaised(attributes: seq<Attribute>, flag: Flag) {
    exists k :: 0 <= k < |attributes| && attributes[k].DoFlag? && attributes[k].flag == flag && attributes[k].i != 0
  }

  function QualityOf(attributes: seq<Attribute>): Quality {
    Quality(IsRaised(attributes, Iv), IsRaised(attributes, Bl), IsRaised(attributes, Ov),
            IsRaised(attributes, Sb), IsRaised(attributes, Nt))
  }

  function StampOf(attributes: seq<Attribute>): Timestamp {
    Timestamp(IntOf(attributes, Ts, 0), IsRaised(attributes, TsIv), IsRaised(attributes, TsSu),
              IsRaised(attributes, TsSub))
  }

  /** The data object that attributes describe. */
  function Collected(attributes: seq<Attribute>): DataObject {
    DataObject(IntOf(attributes, Ca, -1), IntOf(attributes, Ioa, -1),
               IntOf(attributes, Cot, COT_UNKNOWN_COT), IntOf(attributes, Type, -1),
               ValueOf(attributes), QualityOf(attributes), IsRaised(attributes, Negative),
               if HasTs(attributes) then Some(StampOf(attributes)) else None)
  }

  lemma NextFlag(attributes: seq<Attribute>, n: nat, flag: Flag)
    requires n < |attributes|
    ensures IsRaised(attributes[..n + 1], flag)
       <==> IsRaised(attributes[..n], flag)
            || Raises(attributes[n], flag)
  {
    var before, after := attributes[..n], attributes[..n + 1];
    assert after == before + [attributes[n]];
    if IsRaised(before, flag) {
      var k :| 0 <= k < n && before[k].DoFlag? && before[k].flag == flag && before[k].i != 0;
      assert after[k] == before[k];
    }
    if IsRaised(after, flag) {
      var k :| 0 <= k < n + 1 && after[k].DoFlag? && after[k].flag == flag && after[k].i != 0;
      if k < n {
        assert before[k] == after[k];
      }
    }
    assert after[n] == attributes[n];
  }

  lemma NextInt(attributes: seq<Attribute>, n: nat, name: Name, default: int)
    requires n < |attributes| && name in {Ca, Ioa, Cot, Type, Ts}
    ensures IntOf(attributes[..n + 1], name, default)
         == if NameOf(attributes[n]) == name then attributes[n].i else IntOf(attributes[..n], name, default)
  {
    assert attributes[..n + 1][..n] == attributes[..n];
  }

  lemma NextValue(attributes: seq<Attribute>, n: nat)
    requires n < |attributes|
    ensures ValueOf(attributes[..n + 1])
         == if attributes[n].DoValue? then Some(attributes[n].value) else ValueOf(attributes[..n])
    ensures HasTs(attributes[..n + 1]) <==> attributes[n].DoTs? || HasTs(attributes[..n])
  {
    assert attributes[..n + 1][..n] == attributes[..n];
  }

  /** The local variables of the attribute loop. */
  datatype Locals = Locals(ca: int, ioa: int, cot: int, typeId: int, value: Option<Value>, qd: Quality,
                           negative: bool, ts: Timestamp, hasTs: bool)

  /** What the loop does with one attribute. */
  function Take(v: Locals, a: Attribute): Locals {
    match a
    case DoCa(i) => v.(ca := i)
    case DoIoa(i) => v.(ioa := i)
    case DoCot(i) => v.(cot := i)
    case DoType(i) => v.(typeId := i)
    case DoTs(i) => v.(ts := v.ts.(ms := i), hasTs := true)
    case DoValue(value) => v.(value := Some(value))
    case DoFlag(flag, i) => if i != 0 then Raise(v, flag) else v
    case DoOther => v
  }

  function Raise(v: Locals, flag: Flag): Locals {
    match flag
    case Iv => v.(qd := v.qd.(invalid := true))
    case Bl => v.(qd := v.qd.(blocked := true))
    case Ov => v.(qd := v.qd.(overflow := true))
    case Sb => v.(qd := v.qd.(substituted := true))
    case Nt => v.(qd := v.qd.(nonTopical := true))
    case TsIv => v.(ts := v.ts.(invalid := true))
    case TsSu => v.(ts := v.ts.(summerTime := true))
    case TsSub => v.(ts := v.ts.(substituted := true))
    case Negative => v.(negative := true)
  }

  /** The locals as attributes seen so far determine them. */
  function LocalsOf(attributes: seq<Attribute>): Locals {
    Locals(IntOf(attributes, Ca, -1), IntOf(attributes, Ioa, -1),
           IntOf(attributes, Cot, COT_UNKNOWN_COT), IntOf(attributes, Type, -1),
           ValueOf(attributes), QualityOf(attributes), IsRaised(attributes, Negative),
           StampOf(attributes), HasTs(attributes))
  }

  ghost predicate NumbersFollow(v: Locals, v': Locals, a: Attribute) {
    && v'.ca == (if a.DoCa? then a.i else v.ca)
    && v'.ioa == (if a.DoIoa? then a.i else v.ioa)
    && v'.cot == (if a.DoCot? then a.i else v.cot)
    && v'.typeId == (if a.DoType? then a.i else v.typeId)
    && v'.ts.ms == (if a.DoTs? then a.i else v.ts.ms)
    && v'.value == (if a.DoValue? then Some(a.value) else v.value)
    && v'.hasTs == (a.DoTs? || v.hasTs)
  }

  predicate Raises(a: Attribute, flag: Flag) {
    a.DoFlag? && a.flag == flag && a.i != 0
  }

  ghost predicate FlagsFollow(v: Locals, v': Locals, a: Attribute) {
    && v'.qd.invalid == (v.qd.invalid || Raises(a, Iv))
    && v'.qd.blocked == (v.qd.blocked || Raises(a, Bl))
    && v'.qd.overflow == (v.qd.overflow || Raises(a, Ov))
    && v'.qd.substituted == (v.qd.substituted || Raises(a, Sb))
    && v'.qd.nonTopical == (v.qd.nonTopical || Raises(a, Nt))
    && v'.ts.invalid == (v.ts.invalid || Raises(a, TsIv))
    && v'.ts.summerTime == (v.ts.summerTime || Raises(a, TsSu))
    && v'.ts.substituted == (v.ts.substituted || Raises(a, TsSub))
    && v'.negative == (v.negative || Raises(a, Negative))
  }

  lemma NumbersNext(attributes: seq<Attribute>, n: nat)
    requires n < |attributes|
    ensures NumbersFollow(LocalsOf(attributes[..n]), LocalsOf(attributes[..n + 1]), attributes[n])
  {
    hide IntOf, ValueOf, HasTs, IsRaised;
    NextInt(attributes, n, Ca, -1);
    NextInt(attributes, n, Ioa, -1);
    NextInt(attributes, n, Cot, COT_UNKNOWN_COT);
    NextInt(attributes, n, Type, -1);
    NextInt(attributes, n, Ts, 0);
    NextValue(attributes, n);
  }

  lemma FlagsNext(attributes: seq<Attribute>, n: nat)
    requires n < |attributes|
    ensures FlagsFollow(LocalsOf(attributes[..n]), LocalsOf(attributes[..n + 1]), attributes[n])
  {
    hide IntOf, ValueOf, HasTs, IsRaised;
    NextFlag(attributes, n, Iv);
    NextFlag(attributes, n, Bl);
    NextFlag(attributes, n, Ov);
    NextFlag(attributes, n, Sb);
    NextFlag(attributes, n, Nt);
    NextFlag(attributes, n, TsIv);
    NextFlag(attributes, n, TsSu);
    NextFlag(attributes, n, TsSub);
    NextFlag(attributes, n, Negative);
  }

  lemma FollowedIsRaisedQuality(v: Locals, v': Locals, a: Attribute)
    requires NumbersFollow(v, v', a) && FlagsFollow(v, v', a) && a.DoFlag? && a.i != 0
    requires a.flag in {Iv, Bl, Ov, Sb, Nt}
    ensures v' == Raise(v, a.flag)
  {
    assert v' == v.(qd := v'.qd);
  }

  lemma FollowedIsRaisedOther(v: Locals, v': Locals, a: Attribute)
    requires NumbersFollow(v, v', a) && FlagsFollow(v, v', a) && a.DoFlag? && a.i != 0
    requires a.flag !in {Iv, Bl, Ov, Sb, Nt}
    ensures v' == Raise(v, a.flag)
  {
    assert v' == v.(ts := v'.ts, negative := v'.negative);
  }

  lemma FollowedIsTaken(v: Locals, v': Locals, a: Attribute)
    requires NumbersFollow(v, v', a) && FlagsFollow(v, v', a)
    ensures v' == Take(v, a)
  {
    if a.DoFlag? && a.i != 0 {
      if a.flag in {Iv, Bl, Ov, Sb, Nt} {
        FollowedIsRaisedQuality(v, v', a);
      } else {
        FollowedIsRaisedOther(v, v', a);
      }
    } else {
      assert v'.qd == v.qd && v'.negative == v.negative;
      assert v'.ts == v.ts.(ms := v'.ts.ms);
      hide Raise;
    }
  }

  lemma TakeNext(attributes: seq<Attribute>, n: nat)
    requires n < |attributes|
    ensures LocalsOf(attributes[..n + 1]) == Take(LocalsOf(attributes[..n]), attributes[n])
  {
    hide LocalsOf, Take, NumbersFollow, FlagsFollow;
    NumbersNext(attributes, n);
    FlagsNext(attributes, n);
    FollowedIsTaken(LocalsOf(attributes[..n]), LocalsOf(attributes[..n + 1]), attributes[n]);
  }

  /** The attribute loop of `send`: of numbers and values the last one counts, a flag is raised by
      any attribute that is not 0. */
  method Collect(attributes: seq<Attribute>) returns (obj: DataObject)
    ensures obj == Collected(attributes)
  {
    hide IntOf, ValueOf, HasTs, IsRaised, Take;
    var v := Locals(-1, -1, COT_UNKNOWN_COT, -1, None, GOOD, false, Timestamp(0, false, false, false), false);
    NothingYet(v);
    var n := 0;
    assert attributes[..0] == [];
    while n < |attributes|
      invariant 0 <= n <= |attributes|
      invariant v == LocalsOf(attributes[..n])
    {
      TakeNext(attributes, n);
      v := Take(v, attributes[n]);
      n := n + 1;
    }
    assert attributes[..n] == attributes;
    obj := DataObject(v.ca, v.ioa, v.cot, v.typeId, v.value, v.qd, v.negative, if v.hasTs then Some(v.ts) else None);
  }

  lemma NothingYet(v: Locals)
    requires v == Locals(-1, -1, COT_UNKNOWN_COT, -1, None, GOOD, false, Timestamp(0, false, false, false), false)
    ensures v == LocalsOf([])
  {
  }
}
