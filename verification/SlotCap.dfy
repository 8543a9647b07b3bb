/** What the library's cap on open connections is worth to the slots: it is as high as the number of
    all slots, while the slots are counted per address. */
module SlotCap {
  import opened Machine
  import opened SlotSpec
  import opened SlotTracking

  ghost predicate Capped(groups: seq<Group>, es: seq<Event>) {
    && (es != [] ==> Capped(groups, es[..|es| - 1]))
    && |OpenAfter(es)| <= TotalSlots(groups)
  }

  /** All slots are of one address and in one group. */
  ghost predicate AllTogether(groups: seq<Group>) {
    forall g: nat, i: nat, h: nat, j: nat :: IsSlot(groups, g, i) && IsSlot(groups, h, j) ==>
      g == h && groups[g][i].ip == groups[h][j].ip
  }

  predicate IsSlot(groups: seq<Group>, g: nat, i: nat) {
    g < |groups| && i < |groups[g]|
  }

  lemma {:induction false} TotalOfTwo(groups: seq<Group>, g: nat, h: nat)
    requires g < |groups| && h < |groups|
    ensures |groups[g]| + (if g == h then 0 else |groups[h]|) <= TotalSlots(groups)
    decreases |groups|
  {
    var last := |groups| - 1;
    var front := groups[..last];
    if g < last && h < last {
      TotalOfTwo(front, g, h);
    } else if g < last {
      TotalOfTwo(front, g, g);
    } else if h < last {
      TotalOfTwo(front, h, h);
    }
  }

  lemma {:induction false} TotalOfOne(groups: seq<Group>, g: nat)
    requires g < |groups| && forall h :: 0 <= h < |groups| && h != g ==> groups[h] == []
    ensures TotalSlots(groups) == |groups[g]|
  {
    var last := |groups| - 1;
    if g < last {
      TotalOfOne(groups[..last], g);
    } else {
      TotalOfNone(groups[..last]);
    }
  }

  lemma {:induction false} TotalOfNone(groups: seq<Group>)
    requires forall h :: 0 <= h < |groups| ==> groups[h] == []
    ensures TotalSlots(groups) == 0
  {
    if groups != [] {
      TotalOfNone(groups[..|groups| - 1]);
    }
  }

  lemma {:induction false} CountOfAll(group: Group, ip: string)
    ensures Count(group, ip) <= |group|
    ensures Count(group, ip) == |group| <==> forall i :: 0 <= i < |group| ==> group[i].ip == ip
  {
    if group != [] {
      CountOfAll(group[..|group| - 1], ip);
    }
  }

  lemma TogetherMeansTotal(groups: seq<Group>, ip: string)
    requires AllTogether(groups) && IsConfigured(groups, ip)
    ensures Capacity(groups, ip) == TotalSlots(groups)
  {
    var g := FindGroup(groups, ip);
    var i :| 0 <= i < |groups[g]| && groups[g][i].ip == ip;
    forall h | 0 <= h < |groups|
      ensures h != g ==> groups[h] == []
    {
      if groups[h] != [] {
        assert IsSlot(groups, h, 0) && IsSlot(groups, g, i);
      }
    }
    TotalOfOne(groups, g);
    CountOfAll(groups[g], ip);
  }

  lemma TotalMeansTogether(groups: seq<Group>, g: nat, i: nat, h: nat, j: nat)
    requires forall ip :: IsConfigured(groups, ip) ==> Capacity(groups, ip) == TotalSlots(groups)
    requires IsSlot(groups, g, i) && IsSlot(groups, h, j)
    ensures g == h && groups[g][i].ip == groups[h][j].ip
  {
    var ip := groups[g][i].ip;
    assert HasIp(groups[g], ip);
    var f := FindGroup(groups, ip);
    assert IsConfigured(groups, ip);
    CountOfAll(groups[f], ip);
    TotalOfTwo(groups, f, g);
    TotalOfTwo(groups, f, h);
  }

  /** The slots of an address are all slots exactly if the slots are together. */
  lemma CapacityIsTotalIff(groups: seq<Group>)
    ensures AllTogether(groups) <==>
              forall ip :: IsConfigured(groups, ip) ==> Capacity(groups, ip) == TotalSlots(groups)
  {
    hide IsConfigured, Capacity;
    if AllTogether(groups) {
      forall ip | IsConfigured(groups, ip)
        ensures Capacity(groups, ip) == TotalSlots(groups)
      {
        TogetherMeansTotal(groups, ip);
      }
    } else if forall ip :: IsConfigured(groups, ip) ==> Capacity(groups, ip) == TotalSlots(groups) {
      forall g: nat, i: nat, h: nat, j: nat | IsSlot(groups, g, i) && IsSlot(groups, h, j)
        ensures g == h && groups[g][i].ip == groups[h][j].ip
      {
        TotalMeansTogether(groups, g, i, h, j);
      }
      assert false;
    }
  }

  /** The decimal text of a port. */
  function PortText(n: nat): (text: string)
    ensures |text| >= 1 && (n >= 10 ==> |text| >= 2)
  {
    (if n < 10 then "" else PortText(n / 10)) + [('0' as int + n % 10) as char]
  }

  lemma PortTextEnds(n: nat)
    ensures var text := PortText(n);
            && text[|text| - 1] as int == '0' as int + n % 10
            && text[..|text| - 1] == if n < 10 then "" else PortText(n / 10)
  {
  }

  lemma {:induction false} PortTextIsInjective(n: nat, m: nat)
    requires PortText(n) == PortText(m)
    ensures n == m
  {
    PortTextEnds(n);
    PortTextEnds(m);
    if n >= 10 && m >= 10 {
      hide PortText;
      PortTextIsInjective(n / 10, m / 10);
    }
  }

  /** Connections of one address opened one after the other. */
  function Opening(ip: string, n: nat): seq<Event> {
    if n == 0 then [] else Opening(ip, n - 1) + [Event(Peer(ip, PortText(n)), Opened)]
  }

  function FirstPeers(ip: string, n: nat): set<Peer> {
    set k | 1 <= k <= n :: Peer(ip, PortText(k))
  }

  lemma NextPeer(ip: string, n: nat)
    requires n > 0
    ensures FirstPeers(ip, n) == FirstPeers(ip, n - 1) + {Peer(ip, PortText(n))}
    ensures Peer(ip, PortText(n)) !in FirstPeers(ip, n - 1)
  {
    hide PortText;
    if Peer(ip, PortText(n)) in FirstPeers(ip, n - 1) {
      var k :| 1 <= k <= n - 1 && Peer(ip, PortText(k)) == Peer(ip, PortText(n));
      PortTextIsInjective(k, n);
    }
  }

  /** One more connection, within the cap. */
  lemma OneMoreOpens(groups: seq<Group>, es: seq<Event>, p: Peer)
    requires IsOrderly(es) && Capped(groups, es) && |OpenAfter(es)| < TotalSlots(groups)
    requires p.port != "" && p !in OpenAfter(es)
    ensures var es' := es + [Event(p, Opened)];
            IsOrderly(es') && Capped(groups, es') && OpenAfter(es') == OpenAfter(es) + {p}
  {
    hide TotalSlots;
    assert (es + [Event(p, Opened)])[..|es|] == es;
  }

  lemma NoneOpen(groups: seq<Group>, ip: string)
    ensures IsOrderly([]) && Capped(groups, []) && OpenAfter([]) == FirstPeers(ip, 0) == {}
  {
  }

  lemma {:induction false} OpeningOpens(groups: seq<Group>, ip: string, n: nat)
    requires n <= TotalSlots(groups)
    ensures IsOrderly(Opening(ip, n)) && Capped(groups, Opening(ip, n))
    ensures OpenAfter(Opening(ip, n)) == FirstPeers(ip, n) && |FirstPeers(ip, n)| == n
  {
    hide PortText, TotalSlots, FirstPeers, OpenAfter, IsOrderly, Capped;
    if n == 0 {
      NoneOpen(groups, ip);
    } else {
      OpeningOpens(groups, ip, n - 1);
      NextPeer(ip, n);
      PortIsNotEmpty(n);
      OneMoreOpens(groups, Opening(ip, n - 1), Peer(ip, PortText(n)));
    }
  }

  lemma PortIsNotEmpty(n: nat)
    ensures PortText(n) != ""
  {
  }

  /** What the cap is worth: it keeps the open connections of every address within its slots, in all
      orderly runs, if and only if all slots are of one address and in one group. */
  lemma CapSufficesIff(groups: seq<Group>)
    ensures (forall es :: IsOrderly(es) && Capped(groups, es) ==> WithinCapacity(groups, es)) <==> AllTogether(groups)
  {
    hide IsConfigured, Capacity, Opening;
    CapacityIsTotalIff(groups);
    if AllTogether(groups) {
      forall es | IsOrderly(es) && Capped(groups, es)
        ensures WithinCapacity(groups, es)
      {
        CapIsCapacity(groups, es);
      }
    } else {
      var ip :| IsConfigured(groups, ip) && Capacity(groups, ip) != TotalSlots(groups);
      CapacityFitsTotal(groups, ip);
      var n := Capacity(groups, ip) + 1;
      OpeningOpens(groups, ip, n);
      assert OfIp(FirstPeers(ip, n), ip) == FirstPeers(ip, n);
      assert !WithinCapacity(groups, Opening(ip, n));
    }
  }

  lemma CapacityFitsTotal(groups: seq<Group>, ip: string)
    ensures Capacity(groups, ip) <= TotalSlots(groups)
  {
    var g := FindGroup(groups, ip);
    if g < |groups| {
      CountOfAll(groups[g], ip);
      TotalOfTwo(groups, g, g);
    }
  }

  lemma {:induction false} CapIsCapacity(groups: seq<Group>, es: seq<Event>)
    requires forall ip :: IsConfigured(groups, ip) ==> Capacity(groups, ip) == TotalSlots(groups)
    requires Capped(groups, es)
    ensures WithinCapacity(groups, es)
  {
    hide IsConfigured, Capacity;
    if es != [] {
      CapIsCapacity(groups, es[..|es| - 1]);
    }
    forall ip | IsConfigured(groups, ip)
      ensures |OfIp(OpenAfter(es), ip)| <= Capacity(groups, ip)
    {
      SubsetIsSmaller(OfIp(OpenAfter(es), ip), OpenAfter(es));
    }
  }

  lemma SubsetIsSmaller<T>(a: set<T>, b: set<T>)
    requires a <= b
    ensures |a| <= |b|
  {
    assert b == a + (b - a);
  }

  /** The smallest case within the cap: two slots for two addresses, two connections of the first.
      The second is not tracked, and no event of it finds a slot, so its end is not noticed either. */
  lemma SecondConnectionIsMissed(s: State)
    requires s.groups == TWO_ADDRESSES
    ensures var es := [Event(FIRST, Opened), Event(SECOND, Opened)];
            && IsFresh(s.groups) && IsOrderly(es) && Capped(s.groups, es)
            && FIRST in OpenAfter(es) && SECOND in OpenAfter(es) && IsConfigured(s.groups, SECOND.ip)
            && Locate(Run(s, es[..1]).groups, SECOND) == None
            && !IsTracked(Run(s, es).groups, SECOND) && Locate(Run(s, es).groups, SECOND) == None
  {
    hide Step, Locate, IsTracked, Inv;
    var es := [Event(FIRST, Opened), Event(SECOND, Opened)];
    assert es[..1] == [Event(FIRST, Opened)] && es[..1][..0] == [];
    assert OpenAfter([]) == {} && OpenAfter(es[..1]) == {FIRST} && OpenAfter(es) == {FIRST, SECOND};
    assert FIRST.port != SECOND.port;
    assert IsOrderly([]) && IsOrderly(es[..1]) && IsOrderly(es);
    TwoSlots();
    assert Capped(s.groups, []) && Capped(s.groups, es[..1]) && Capped(s.groups, es);
    var t := Step(s, FIRST, Opened);
    assert Run(s, []) == s && Run(s, es[..1]) == t && Run(s, es) == Step(t, SECOND, Opened);
    FreshIsInv(s.groups);
    FirstIsLocated(s);
    StepTracks(s, FIRST, Opened);
    NoRoomForSecond(t);
    StepTracks(t, SECOND, Opened);
    ShapeIsTransitive(s.groups, t.groups, Run(s, es).groups);
    NoRoomForSecond(Run(s, es));
  }

  const FIRST := Peer("10.0.0.1", "40001")
  const SECOND := Peer("10.0.0.1", "40002")
  const TWO_ADDRESSES: seq<Group> := [[Slot("10.0.0.1", "", "A", false), Slot("10.0.0.2", "", "B", false)]]

  lemma TwoSlots()
    ensures TotalSlots(TWO_ADDRESSES) == 2
    ensures FindGroup(TWO_ADDRESSES, FIRST.ip) == 0 && Capacity(TWO_ADDRESSES, FIRST.ip) == 1
  {
    assert TWO_ADDRESSES[..0] == [];
    var group := TWO_ADDRESSES[0];
    assert group[0].ip == FIRST.ip && HasIp(group, FIRST.ip);
    assert group[1].ip != FIRST.ip by {
      assert group[1].ip[7] == '2' && FIRST.ip[7] == '1';
    }
    assert group[..1] == [group[0]] && group[..1][..0] == [];
    assert Count([], FIRST.ip) == 0 && Count(group[..1], FIRST.ip) == 1;
  }

  lemma FirstIsLocated(s: State)
    requires s.groups == TWO_ADDRESSES
    ensures Locate(s.groups, FIRST).Some?
  {
    TwoSlots();
    assert s.groups[0][0].ip == FIRST.ip && s.groups[0][0].port == "";
  }

  lemma NoRoomForSecond(t: State)
    requires SameShape(TWO_ADDRESSES, t.groups) && Inv(t.groups) && IsTracked(t.groups, FIRST)
    ensures !IsTracked(t.groups, SECOND) && Locate(t.groups, SECOND) == None && IsConfigured(TWO_ADDRESSES, SECOND.ip)
  {
    hide Inv, FindSlot, Locate, FindGroup;
    TwoSlots();
    SameShapeSameGroup(TWO_ADDRESSES, t.groups, FIRST.ip);
    SameShapeSameCapacity(TWO_ADDRESSES, t.groups, FIRST.ip);
    TrackedInFirstGroup(t.groups, FIRST);
    TrackedInFirstGroup(t.groups, SECOND);
    var held := PeersOf(t.groups[0], FIRST.ip);
    InvIsUnique(t.groups, 0);
    CountPeers(t.groups[0], FIRST.ip);
    assert |held| <= 1 && FIRST in held;
    if SECOND in held {
      SubsetIsSmaller({FIRST, SECOND}, held);
    }
    LocatedIff(t.groups, SECOND);
    OneHeld(held);
  }

  lemma OneHeld(held: set<Peer>)
    requires FIRST in held && |held| <= 1
    ensures |held| == 1
  {
    assert held - {FIRST} == {} || |held - {FIRST}| > 0;
  }
}
