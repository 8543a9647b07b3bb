/** Packing information objects into messages of bounded size: what the library accepts, the greedy
    loop of the interrogation response, and why no packing needs fewer messages. */
module Packing {
  import opened Machine
  import opened Protocol
  import opened Points

  /** Octets of a message and of its address fields. */
  datatype Limits = Limits(maxAsdu: nat, caSize: nat, ioaSize: nat)

  /** The number of elements is a seven-bit field, section 7.2.2 of IEC 60870-5-101. */
  const MAX_ELEMENTS := 127

  type Objects = seq<InfoObject>

  /** Octets of the value and quality fields of a monitoring type. */
  function ValueSize(typeId: int): (n: nat)
    ensures 1 <= n <= 5
  {
    if typeId in {M_SP_NA_1, M_DP_NA_1, M_SP_TB_1, M_DP_TB_1} then 1
    else if typeId in {M_ST_NA_1, M_ST_TB_1} then 2
    else if typeId in {M_ME_NA_1, M_ME_NB_1, M_ME_TD_1, M_ME_TE_1} then 3
    else 5
  }

  /** Type, variable structure qualifier, two octets of cause, common address. */
  function HeaderSize(l: Limits): nat {
    4 + l.caSize
  }

  function ObjectSize(l: Limits, typeId: int): (n: nat)
    ensures n >= 1
  {
    l.ioaSize + ValueSize(typeId) + if HasTimeTag(typeId) then 7 else 0
  }

  function Payload(l: Limits, f: Objects): nat {
    if f == [] then 0 else Payload(l, f[..|f| - 1]) + ObjectSize(l, f[|f| - 1].typeId)
  }

  /** The rule of `CS101_ASDU_addInformationObject`: the first object fixes the type, later ones
      must have it, and count and size are bounded. */
  predicate CanAdd(l: Limits, f: Objects, o: InfoObject) {
    && (f != [] ==> |f| < MAX_ELEMENTS && f[0].typeId == o.typeId)
    && HeaderSize(l) + Payload(l, f) + ObjectSize(l, o.typeId) <= l.maxAsdu
  }

  /** An object that fits an empty message. */
  predicate Fits(l: Limits, o: InfoObject) {
    CanAdd(l, [], o)
  }

  ghost predicate AllFit(l: Limits, os: Objects) {
    forall o :: o in os ==> Fits(l, o)
  }

  /** A message that may be sent: not empty, of one type, within count and size. */
  ghost predicate IsMessage(l: Limits, f: Objects) {
    && 0 < |f| <= MAX_ELEMENTS
    && (forall i :: 0 <= i < |f| ==> f[i].typeId == f[0].typeId)
    && HeaderSize(l) + Payload(l, f) <= l.maxAsdu
  }

  function Flatten(fs: seq<Objects>): Objects {
    if fs == [] then [] else Flatten(fs[..|fs| - 1]) + fs[|fs| - 1]
  }

  /** An order-preserving packing of these objects. */
  ghost predicate IsPacking(l: Limits, fs: seq<Objects>, os: Objects) {
    (forall f :: f in fs ==> IsMessage(l, f)) && Flatten(fs) == os
  }

  // ---------------------------------------------------------------- the greedy loop

  /** The messages sent so far and the one being filled. */
  datatype Packer = Packer(sent: seq<Objects>, open: Objects)

  /** One object: added, or else the open message is sent, whatever it holds, and the object is
      tried once more on an empty one. */
  function Place(l: Limits, p: Packer, o: InfoObject): Packer {
    if CanAdd(l, p.open, o) then p.(open := p.open + [o])
    else Packer(p.sent + [p.open], if Fits(l, o) then [o] else [])
  }

  function Pack(l: Limits, os: Objects): Packer {
    if os == [] then Packer([], []) else Place(l, Pack(l, os[..|os| - 1]), os[|os| - 1])
  }

  /** What is sent in all: a non-empty open message goes last. */
  function Messages(l: Limits, os: Objects): seq<Objects> {
    var p := Pack(l, os);
    if p.open == [] then p.sent else p.sent + [p.open]
  }

  // ---------------------------------------------------------------- nothing lost, nothing invented

  function Fitting(l: Limits, os: Objects): Objects {
    if os == [] then []
    else Fitting(l, os[..|os| - 1]) + (if Fits(l, os[|os| - 1]) then [os[|os| - 1]] else [])
  }

  lemma FlattenAppend(fs: seq<Objects>, f: Objects)
    ensures Flatten(fs + [f]) == Flatten(fs) + f
  {
    assert (fs + [f])[..|fs|] == fs;
  }

  /** Whatever the sizes, what is sent is the objects that fit on their own, in order. */
  lemma {:induction false} PackedAreTheFitting(l: Limits, os: Objects)
    ensures Flatten(Pack(l, os).sent) + Pack(l, os).open == Fitting(l, os)
    ensures Flatten(Messages(l, os)) == Fitting(l, os)
  {
    if os == [] {
    } else {
      hide CanAdd, Fits;
      var front, o := os[..|os| - 1], os[|os| - 1];
      PackedAreTheFitting(l, front);
      var p := Pack(l, front);
      FlattenAppend(p.sent, p.open);
      AddableFits(l, p.open, o);
    }
    FlattenAppend(Pack(l, os).sent, Pack(l, os).open);
  }

  lemma {:induction false} FittingIsAllIff(l: Limits, os: Objects)
    ensures |Fitting(l, os)| <= |os|
    ensures Fitting(l, os) == os <==> AllFit(l, os)
  {
    if os == [] {
    } else {
      var front, o := os[..|os| - 1], os[|os| - 1];
      FittingIsAllIff(l, front);
      assert os == front + [o];
      if Fitting(l, os) == os {
        assert |Fitting(l, front)| == |front| && Fits(l, o);
        assert Fitting(l, front) == os[..|front|];
      }
    }
  }

  /** Nothing is lost exactly when every object fits an empty message. */
  lemma LosslessIff(l: Limits, os: Objects)
    ensures Flatten(Messages(l, os)) == os <==> AllFit(l, os)
  {
    PackedAreTheFitting(l, os);
    FittingIsAllIff(l, os);
  }

  /** The limits of a configuration: an ASDU size of 0 means the largest. */
  function LimitsOf(asduSize: nat, caSize: nat, ioaSize: nat): Limits {
    Limits(if asduSize == 0 then 253 else asduSize, caSize, ioaSize)
  }

  /** The octets of an object by the number of its type, beside its address. */
  lemma SizesByNumber(l: Limits, o: InfoObject)
    requires IsReadingType(o.typeId)
    ensures var n := if o.typeId in {1, 3} then 1 else if o.typeId == 5 then 2 else if o.typeId in {9, 11} then 3
                     else if o.typeId == 13 then 5 else if o.typeId in {30, 31} then 8 else if o.typeId == 32 then 9
                     else if o.typeId in {34, 35} then 10 else 12;
            Fits(l, o) <==> 4 + l.caSize + l.ioaSize + n <= l.maxAsdu
  {
    assert Payload(l, []) == 0;
  }

  /** Under which limits every object fits: header, object address and the five octets of a short
      float; seven more if the object may have a time tag. */
  lemma EveryObjectFitsIff(l: Limits)
    ensures (forall o: InfoObject :: !HasTimeTag(o.typeId) ==> Fits(l, o)) <==> 9 + l.caSize + l.ioaSize <= l.maxAsdu
    ensures (forall o :: Fits(l, o)) <==> 16 + l.caSize + l.ioaSize <= l.maxAsdu
  {
    assert Payload(l, []) == 0;
    var short, tagged := InfoObject(M_ME_NC_1, 0, NoMember, None), InfoObject(M_ME_TF_1, 0, NoMember, None);
    assert !HasTimeTag(short.typeId) && (Fits(l, short) <==> 9 + l.caSize + l.ioaSize <= l.maxAsdu);
    assert Fits(l, tagged) <==> 16 + l.caSize + l.ioaSize <= l.maxAsdu;
  }

  /** With address sizes as configurations may have them, 14 octets suffice for objects without
      time tag; and so does size 0. */
  lemma FourteenOctetsSuffice(asduSize: nat, caSize: nat, ioaSize: nat, os: Objects)
    requires caSize <= 2 && ioaSize <= 3 && (asduSize == 0 || asduSize >= 14)
    requires forall o :: o in os ==> !HasTimeTag(o.typeId)
    ensures AllFit(LimitsOf(asduSize, caSize, ioaSize), os)
  {
    EveryObjectFitsIff(LimitsOf(asduSize, caSize, ioaSize));
  }

  /** A configuration accepts sizes from 11 octets on; with 13 a short float is lost, and an empty
      message is sent in its place. */
  lemma ThirteenOctetsLoseAShortFloat(o: InfoObject)
    requires o.typeId == M_ME_NC_1
    ensures Messages(LimitsOf(13, 2, 3), [o]) == [[]]
  {
    var l := LimitsOf(13, 2, 3);
    assert [o][..0] == [];
    assert Payload(l, []) == 0;
    assert Pack(l, [o]) == Place(l, Pack(l, []), o);
  }

  /** An object that fits nowhere and comes first, or right after another such object. */
  ghost predicate Wasted(l: Limits, os: Objects, i: nat)
    requires i < |os|
  {
    !Fits(l, os[i]) && (i == 0 || !Fits(l, os[i - 1]))
  }

  lemma {:induction false} OpenIsEmptyIff(l: Limits, os: Objects)
    ensures Pack(l, os).open == [] <==> os == [] || !Fits(l, os[|os| - 1])
  {
    if os != [] {
      AddableFits(l, Pack(l, os[..|os| - 1]).open, os[|os| - 1]);
    }
  }

  /** An empty message is sent exactly for such an object. */
  lemma {:induction false} EmptyMessageIff(l: Limits, os: Objects)
    ensures [] in Pack(l, os).sent <==> exists i :: 0 <= i < |os| && Wasted(l, os, i)
  {
    if os == [] {
    } else {
      var n := |os| - 1;
      var front, o := os[..n], os[n];
      EmptyMessageIff(l, front);
      var p := Pack(l, front);
      assert Pack(l, os) == Place(l, p, o);
      OpenIsEmptyIff(l, front);
      AddableFits(l, p.open, o);
      assert forall i :: 0 <= i < n ==> (Wasted(l, front, i) <==> Wasted(l, os, i));
      hide Fits, CanAdd, Pack;
      assert Wasted(l, os, n) <==> p.open == [] && !CanAdd(l, p.open, o);
    }
  }

  lemma AddableFits(l: Limits, f: Objects, o: InfoObject)
    ensures CanAdd(l, f, o) ==> Fits(l, o)
  {
    assert Payload(l, []) == 0;
  }

  // ---------------------------------------------------------------- every message may be sent

  lemma AddableIsMessage(l: Limits, f: Objects, o: InfoObject)
    requires f == [] || IsMessage(l, f)
    ensures CanAdd(l, f, o) <==> IsMessage(l, f + [o])
  {
    assert (f + [o])[..|f|] == f;
    if f != [] && IsMessage(l, f + [o]) {
      assert (f + [o])[|f|].typeId == (f + [o])[0].typeId;
    }
  }

  lemma PlaceKeepsMessages(l: Limits, p: Packer, o: InfoObject)
    requires forall f :: f in p.sent ==> IsMessage(l, f)
    requires p.open == [] || IsMessage(l, p.open)
    requires Fits(l, o)
    ensures forall f :: f in Place(l, p, o).sent ==> IsMessage(l, f)
    ensures IsMessage(l, Place(l, p, o).open)
  {
    hide IsMessage, CanAdd;
    AddableIsMessage(l, p.open, o);
    AddableIsMessage(l, [], o);
    assert [] + [o] == [o];
  }

  /** While every object fits, each message sent may be sent, and the open one is never empty. */
  lemma {:induction false} PackIsPacking(l: Limits, os: Objects)
    requires AllFit(l, os)
    ensures IsPacking(l, Messages(l, os), os)
    ensures forall f :: f in Pack(l, os).sent ==> IsMessage(l, f)
    ensures os != [] ==> IsMessage(l, Pack(l, os).open)
    ensures os == [] ==> Pack(l, os) == Packer([], [])
  {
    hide IsMessage, CanAdd, Flatten;
    LosslessIff(l, os);
    if os == [] {
    } else {
      var front, o := os[..|os| - 1], os[|os| - 1];
      PackIsPacking(l, front);
      PlaceKeepsMessages(l, Pack(l, front), o);
    }
  }

  // ---------------------------------------------------------------- no packing is shorter

  lemma {:induction false} SuffixWeighsLess(l: Limits, f: Objects, k: nat)
    requires k <= |f|
    ensures Payload(l, f[k..]) <= Payload(l, f)
  {
    if k < |f| {
      assert f[k..][..|f| - k - 1] == f[..|f| - 1][k..];
      SuffixWeighsLess(l, f[..|f| - 1], k);
    } else {
      assert f[k..] == [];
    }
  }

  lemma SuffixIsMessage(l: Limits, f: Objects, k: nat)
    requires IsMessage(l, f) && k < |f|
    ensures IsMessage(l, f[k..])
  {
    SuffixWeighsLess(l, f, k);
  }

  lemma LastOfFlatten(fs: seq<Objects>)
    requires fs != []
    ensures var f := fs[|fs| - 1];
            |f| <= |Flatten(fs)| && Flatten(fs)[|Flatten(fs)| - |f|..] == f
            && Flatten(fs)[..|Flatten(fs)| - |f|] == Flatten(fs[..|fs| - 1])
  {
  }

  /** A packing of `front + [o]` with `o` taken out of its last message. */
  lemma DropLast(l: Limits, fs: seq<Objects>, front: Objects, o: InfoObject) returns (rest: seq<Objects>)
    requires IsPacking(l, fs, front + [o])
    ensures fs != [] && fs[|fs| - 1] != []
    ensures IsPacking(l, rest, front)
    ensures var last := fs[|fs| - 1];
            && last[|last| - 1] == o
            && if |last| == 1 then |rest| == |fs| - 1
               else |rest| == |fs| && rest[|rest| - 1] == last[..|last| - 1]
  {
    assert fs != [];
    var last, before := fs[|fs| - 1], fs[..|fs| - 1];
    assert last in fs;
    LastOfFlatten(fs);
    assert last[|last| - 1] == (front + [o])[|front|];
    var q := last[..|last| - 1];
    assert Flatten(before) + q == front by {
      assert Flatten(fs) == Flatten(before) + last;
      assert (Flatten(before) + last)[..|front|] == Flatten(before) + q;
    }
    if q == [] {
      rest := before;
    } else {
      rest := before + [q];
      FlattenAppend(before, q);
      assert q == last[..|q|] && IsMessage(l, q);
    }
  }

  /** The greedy count is minimal; and among the packings with as few messages none has a shorter
      last message, which is what carries the induction. */
  lemma {:induction false} GreedyStaysAhead(l: Limits, os: Objects, fs: seq<Objects>)
    requires os != [] && AllFit(l, os) && IsPacking(l, fs, os)
    ensures fs != [] && |Pack(l, os).sent| + 1 <= |fs|
    ensures |Pack(l, os).sent| + 1 == |fs| ==> |Pack(l, os).open| <= |fs[|fs| - 1]|
    decreases |os|
  {
    var front, o := os[..|os| - 1], os[|os| - 1];
    assert os == front + [o];
    var rest := DropLast(l, fs, front, o);
    var last := fs[|fs| - 1];
    if front != [] {
      GreedyStaysAhead(l, front, rest);
      if |last| > 1 && |Pack(l, front).sent| + 1 == |fs| && !CanAdd(l, Pack(l, front).open, o) {
        CouldHaveAdded(l, front, o, fs);
      }
    }
  }

  /** If a packing puts `o` into a last message that reaches back at least as far as the greedy
      one does, the greedy loop could have added `o` too. */
  lemma CouldHaveAdded(l: Limits, front: Objects, o: InfoObject, fs: seq<Objects>)
    requires front != [] && AllFit(l, front) && IsPacking(l, fs, front + [o]) && fs != []
    requires |Pack(l, front).open| < |fs[|fs| - 1]|
    ensures CanAdd(l, Pack(l, front).open, o)
  {
    hide Pack, Payload, CanAdd;
    var last, open := fs[|fs| - 1], Pack(l, front).open;
    assert last in fs;
    LastOfFlatten(fs);
    PackIsPacking(l, front);
    OpenIsSuffix(l, front);
    var k := |last| - 1 - |open|;
    assert last[k..] == open + [o] by {
      assert (front + [o])[|front| + 1 - |last|..] == last;
    }
    SuffixIsMessage(l, last, k);
    AddableIsMessage(l, open, o);
  }

  lemma OpenIsSuffix(l: Limits, os: Objects)
    requires AllFit(l, os)
    ensures |Pack(l, os).open| <= |os| && os[|os| - |Pack(l, os).open|..] == Pack(l, os).open
  {
    PackedAreTheFitting(l, os);
    FittingIsAllIff(l, os);
  }

  /** Interrogation packing is optimal: when every object fits an empty message, the messages are a
      packing of the objects and no other packing that keeps the order has fewer. */
  lemma PackingIsOptimal(l: Limits, os: Objects, fs: seq<Objects>)
    requires AllFit(l, os) && IsPacking(l, fs, os)
    ensures IsPacking(l, Messages(l, os), os) && |Messages(l, os)| <= |fs|
  {
    PackIsPacking(l, os);
    if os != [] {
      GreedyStaysAhead(l, os, fs);
    }
  }

  // ---------------------------------------------------------------- the closed form

  /** How many objects of one type a message holds. */
  function Capacity(l: Limits, typeId: int): nat
    requires HeaderSize(l) <= l.maxAsdu
  {
    var n := (l.maxAsdu - HeaderSize(l)) / ObjectSize(l, typeId);
    if n < MAX_ELEMENTS then n else MAX_ELEMENTS
  }

  function CeilDiv(n: nat, d: nat): nat
    requires d > 0
  {
    if n == 0 then 0 else (n - 1) / d + 1
  }

  /** `CeilDiv` is the least number of boxes of `d` that hold `n`. */
  lemma CeilDivIsLeast(n: nat, d: nat, k: nat)
    requires d > 0
    ensures k >= CeilDiv(n, d) <==> k * d >= n
  {
    if n > 0 {
      ProductBound(k, d, n - 1);
    }
  }

  /** Length of the longest suffix of one type. */
  function LastRun(os: Objects): (r: nat)
    ensures r <= |os| && (os != [] ==> r > 0)
  {
    if |os| <= 1 then |os|
    else if os[|os| - 1].typeId == os[|os| - 2].typeId then 1 + LastRun(os[..|os| - 1])
    else 1
  }

  /** The sum over maximal runs of one type of run length divided by capacity, rounded up. */
  function RunSum(l: Limits, os: Objects): nat
    requires HeaderSize(l) <= l.maxAsdu
    requires forall o :: o in os ==> Capacity(l, o.typeId) > 0
  {
    if os == [] then 0
    else
      var r := LastRun(os);
      var o := os[|os| - 1];
      assert o in os;
      RunSum(l, os[..|os| - r]) + CeilDiv(r, Capacity(l, o.typeId))
  }

  lemma {:induction false} PayloadOfOneType(l: Limits, f: Objects, typeId: int)
    requires forall o :: o in f ==> o.typeId == typeId
    ensures Payload(l, f) == |f| * ObjectSize(l, typeId)
  {
    if f == [] {
    } else {
      PayloadOfOneType(l, f[..|f| - 1], typeId);
      assert f[|f| - 1] in f;
      assert |f| * ObjectSize(l, typeId) == (|f| - 1) * ObjectSize(l, typeId) + ObjectSize(l, typeId);
    }
  }

  lemma ProductBound(n: nat, size: nat, room: nat)
    requires size > 0
    ensures n * size <= room <==> n <= room / size
  {
    var q, r := room / size, room % size;
    assert room == q * size + r;
    if n <= q {
      assert (q - n) * size >= 0;
      assert n * size == q * size - (q - n) * size;
    } else {
      assert (n - q - 1) * size >= 0;
      assert n * size == (q + 1) * size + (n - q - 1) * size;
    }
  }

  /** A message of one type takes one more of it exactly below capacity. */
  lemma AddableBelowCapacity(l: Limits, f: Objects, o: InfoObject)
    requires HeaderSize(l) <= l.maxAsdu
    requires forall x :: x in f ==> x.typeId == o.typeId
    ensures CanAdd(l, f, o) <==> |f| < Capacity(l, o.typeId)
  {
    var size := ObjectSize(l, o.typeId);
    PayloadOfOneType(l, f, o.typeId);
    assert |f| * size + size == (|f| + 1) * size;
    ProductBound(|f| + 1, size, l.maxAsdu - HeaderSize(l));
    if f != [] {
      assert f[0] in f;
    }
  }

  lemma NextQuotient(x: nat, d: nat)
    requires d > 0
    ensures if x % d == d - 1 then (x + 1) / d == x / d + 1 && (x + 1) % d == 0
            else (x + 1) / d == x / d && (x + 1) % d == x % d + 1
  {
    var q, r := x / d, x % d;
    assert x == q * d + r;
    if r == d - 1 {
      assert x + 1 == (q + 1) * d + 0;
      QuotientIs(x + 1, d, q + 1, 0);
    } else {
      QuotientIs(x + 1, d, q, r + 1);
    }
  }

  lemma QuotientIs(x: nat, d: nat, q: nat, r: nat)
    requires d > 0 && x == q * d + r && r < d
    ensures x / d == q && x % d == r
  {
    ProductBound(q, d, x);
    ProductBound(q + 1, d, x);
    assert (q + 1) * d == q * d + d;
    assert x == (x / d) * d + x % d;
  }

  /** How many objects the last message of a run of `r` holds, with `c` to a message. */
  function Fill(r: nat, c: nat): (n: nat)
    requires r > 0 && c > 0
    ensures 1 <= n <= c
  {
    (r - 1) % c + 1
  }

  /** The greedy loop inside a run: its count so far, and how full the open message is. */
  lemma {:induction false} CountInRun(l: Limits, os: Objects)
    requires HeaderSize(l) <= l.maxAsdu && os != [] && AllFit(l, os)
    requires forall o :: o in os ==> Capacity(l, o.typeId) > 0
    ensures |Pack(l, os).sent| + 1 == RunSum(l, os)
    ensures os[|os| - 1] in os && |Pack(l, os).open| == Fill(LastRun(os), Capacity(l, os[|os| - 1].typeId))
    ensures forall x :: x in Pack(l, os).open ==> x.typeId == os[|os| - 1].typeId
    decreases |os|
  {
    hide CanAdd, Fits, Pack, Payload, Capacity, IsMessage, Flatten, RunSum, LastRun, Fill, HeaderSize;
    var front, o := os[..|os| - 1], os[|os| - 1];
    assert o in os && Fits(l, o);
    assert os == front + [o];
    if front == [] {
      CountFirst(l, o);
      assert os == [o];
    } else {
      assert front[|front| - 1] in os;
      CountInRun(l, front);
      CountNext(l, front, o);
    }
  }

  lemma CountFirst(l: Limits, o: InfoObject)
    requires HeaderSize(l) <= l.maxAsdu && Fits(l, o) && Capacity(l, o.typeId) > 0
    ensures |Pack(l, [o]).sent| + 1 == RunSum(l, [o]) && Pack(l, [o]).open == [o]
    ensures LastRun([o]) == 1 && Fill(1, Capacity(l, o.typeId)) == 1
  {
    hide CanAdd, Capacity, Payload;
    assert [o][..0] == [] && RunSum(l, []) == 0;
    FirstOfRun(Capacity(l, o.typeId));
  }

  /** One more object in a run: whether the open message takes it, and how the closed form grows. */
  lemma FillNext(r: nat, c: nat)
    requires r > 0 && c > 0
    ensures if Fill(r, c) < c then CeilDiv(r + 1, c) == CeilDiv(r, c) && Fill(r + 1, c) == Fill(r, c) + 1
            else CeilDiv(r + 1, c) == CeilDiv(r, c) + 1 && Fill(r + 1, c) == 1
  {
    NextQuotient(r - 1, c);
  }

  lemma FirstOfRun(c: nat)
    requires c > 0
    ensures CeilDiv(1, c) == 1 && Fill(1, c) == 1
  {
    QuotientIs(0, c, 0, 0);
  }

  lemma LastRunNext(front: Objects, o: InfoObject)
    requires front != []
    ensures LastRun(front + [o]) == if front[|front| - 1].typeId == o.typeId then LastRun(front) + 1 else 1
  {
    assert (front + [o])[..|front|] == front;
  }

  lemma RunSumUnfolds(l: Limits, os: Objects, rest: Objects)
    requires HeaderSize(l) <= l.maxAsdu && os != [] && rest == os[..|os| - LastRun(os)]
    requires forall x :: x in os ==> Capacity(l, x.typeId) > 0
    ensures forall x :: x in rest ==> x in os
    ensures os[|os| - 1] in os
    ensures RunSum(l, os) == RunSum(l, rest) + CeilDiv(LastRun(os), Capacity(l, os[|os| - 1].typeId))
  {
    hide LastRun, Capacity, CeilDiv, HeaderSize;
  }

  /** How the closed form grows by one object. */
  lemma RunSumNext(l: Limits, front: Objects, o: InfoObject)
    requires HeaderSize(l) <= l.maxAsdu && front != []
    requires forall x :: x in front + [o] ==> Capacity(l, x.typeId) > 0
    ensures forall x :: x in front ==> x in front + [o]
    ensures var r, c := LastRun(front), Capacity(l, o.typeId);
            c > 0
            && RunSum(l, front + [o])
               == if front[|front| - 1].typeId == o.typeId then RunSum(l, front) - CeilDiv(r, c) + CeilDiv(r + 1, c)
                  else RunSum(l, front) + 1
  {
    hide Capacity, LastRun, CeilDiv, RunSum;
    var os, r := front + [o], LastRun(front);
    assert o in os;
    LastRunNext(front, o);
    FirstOfRun(Capacity(l, o.typeId));
    if front[|front| - 1].typeId == o.typeId {
      assert os[..|os| - (r + 1)] == front[..|front| - r];
      RunSumUnfolds(l, os, front[..|front| - r]);
      RunSumUnfolds(l, front, front[..|front| - r]);
    } else {
      assert os[..|os| - 1] == front;
      RunSumUnfolds(l, os, front);
    }
  }

  /** One more object of the open message's type. */
  lemma PlaceInRun(l: Limits, p: Packer, o: InfoObject)
    requires HeaderSize(l) <= l.maxAsdu && Fits(l, o) && forall x :: x in p.open ==> x.typeId == o.typeId
    ensures var q := Place(l, p, o);
            && (if |p.open| < Capacity(l, o.typeId) then |q.sent| == |p.sent| && |q.open| == |p.open| + 1
                else |q.sent| == |p.sent| + 1 && |q.open| == 1)
            && forall x :: x in q.open ==> x.typeId == o.typeId
  {
    AddableBelowCapacity(l, p.open, o);
  }

  /** An object of another type. */
  lemma PlaceNewRun(l: Limits, p: Packer, o: InfoObject)
    requires Fits(l, o) && p.open != [] && p.open[0].typeId != o.typeId
    ensures |Place(l, p, o).sent| == |p.sent| + 1 && Place(l, p, o).open == [o]
  {
  }

  lemma CountNext(l: Limits, front: Objects, o: InfoObject)
    requires HeaderSize(l) <= l.maxAsdu && front != [] && AllFit(l, front) && Fits(l, o)
    requires forall x :: x in front + [o] ==> Capacity(l, x.typeId) > 0
    requires |Pack(l, front).sent| + 1 == RunSum(l, front)
    requires front[|front| - 1] in front + [o]
    requires |Pack(l, front).open| == Fill(LastRun(front), Capacity(l, front[|front| - 1].typeId))
    requires forall x :: x in Pack(l, front).open ==> x.typeId == front[|front| - 1].typeId
    ensures var os := front + [o];
            && |Pack(l, os).sent| + 1 == RunSum(l, os)
            && o in os && |Pack(l, os).open| == Fill(LastRun(os), Capacity(l, o.typeId))
            && forall x :: x in Pack(l, os).open ==> x.typeId == o.typeId
  {
    var p, c := Pack(l, front), Capacity(l, o.typeId);
    assert o in front + [o];
    PackNext(l, front, o);
    LastRunNext(front, o);
    RunSumNext(l, front, o);
    hide Fits, Pack, Place, Capacity, IsMessage, CeilDiv, Fill, RunSum, LastRun, AllFit, HeaderSize;
    if front[|front| - 1].typeId == o.typeId {
      PlaceInRun(l, p, o);
      FillNext(LastRun(front), c);
    } else {
      PackIsPacking(l, front);
      NotEmpty(l, p.open);
      assert p.open[0] in p.open;
      PlaceNewRun(l, p, o);
      FirstOfRun(c);
    }
  }

  lemma PackNext(l: Limits, front: Objects, o: InfoObject)
    ensures Pack(l, front + [o]) == Place(l, Pack(l, front), o)
  {
    assert (front + [o])[..|front|] == front;
  }

  lemma NotEmpty(l: Limits, f: Objects)
    requires IsMessage(l, f)
    ensures f != []
  {
  }

  /** The number of data messages is the sum over runs of one type. */
  lemma CountIsRunSum(l: Limits, os: Objects)
    requires HeaderSize(l) <= l.maxAsdu && AllFit(l, os)
    ensures forall o :: o in os ==> Capacity(l, o.typeId) > 0
    ensures |Messages(l, os)| == RunSum(l, os)
  {
    forall o | o in os
      ensures Capacity(l, o.typeId) > 0
    {
      AddableBelowCapacity(l, [], o);
    }
    if os != [] {
      CountInRun(l, os);
      PackIsPacking(l, os);
    }
  }
}
