/** Over every sequence of connection events the slots track the connections that are open, as far
    as there are slots. */
module SlotTracking {
  import opened Machine
  import opened SlotSpec

  // ---------------------------------------------------------------- slots as a set of peers

  /** Two slots of one group never hold the same address and port. */
  ghost predicate Unique(group: Group) {
    forall i, j :: 0 <= i < j < |group| ==>
      !(group[i].ip == group[j].ip && group[i].port == group[j].port && group[i].port != "")
  }

  /** Ports are unique per group, and only the first group of an address ever holds one. */
  ghost predicate Inv(groups: seq<Group>) {
    && (forall g :: 0 <= g < |groups| ==> Unique(groups[g]))
    && (forall g, i :: 0 <= g < |groups| && 0 <= i < |groups[g]| && groups[g][i].port != "" ==>
          g == FindGroup(groups, groups[g][i].ip))
  }

  ghost predicate Holds(groups: seq<Group>, g: nat, i: nat, p: Peer) {
    g < |groups| && i < |groups[g]| && groups[g][i].ip == p.ip && groups[g][i].port == p.port && p.port != ""
  }

  /** The peers some slot holds. */
  ghost predicate IsTracked(groups: seq<Group>, p: Peer) {
    exists g: nat, i: nat :: Holds(groups, g, i, p)
  }

  ghost predicate SameShape(a: seq<Group>, b: seq<Group>) {
    && |a| == |b|
    && (forall g :: 0 <= g < |a| ==> |a[g]| == |b[g]|)
    && (forall g, i :: 0 <= g < |a| && 0 <= i < |a[g]| ==> a[g][i].ip == b[g][i].ip)
  }

  lemma SameShapeSameGroup(a: seq<Group>, b: seq<Group>, ip: string)
    requires SameShape(a, b)
    ensures FindGroup(a, ip) == FindGroup(b, ip)
  {
    forall g | 0 <= g < |a|
      ensures HasIp(a[g], ip) <==> HasIp(b[g], ip)
    {
      if HasIp(a[g], ip) {
        var i :| 0 <= i < |a[g]| && a[g][i].ip == ip;
        assert b[g][i].ip == ip;
      }
      if HasIp(b[g], ip) {
        var i :| 0 <= i < |b[g]| && b[g][i].ip == ip;
        assert a[g][i].ip == ip;
      }
    }
  }

  /** A tracked peer is found in its own slot, and only there. */
  lemma LocateTracked(groups: seq<Group>, p: Peer, g: nat, i: nat)
    requires Inv(groups) && Holds(groups, g, i, p)
    ensures Locate(groups, p) == Some((g, i))
    ensures forall h: nat, j: nat :: Holds(groups, h, j, p) ==> h == g && j == i
  {
    hide FindGroup, FindSlot;
    assert groups[g][i].port != "";
    forall h: nat, j: nat | Holds(groups, h, j, p)
      ensures h == g && j == i
    {
      assert groups[h][j].port != "";
      assert Unique(groups[g]);
    }
    assert FindGroup(groups, p.ip) == g;
    var own := FindSlot(groups[g], p.ip, p.port);
    assert own <= i;
    assert Holds(groups, g, own, p);
  }

  /** Writing one slot of the located position: the shape stays and so does every other slot. */
  lemma WriteSlot(groups: seq<Group>, p: Peer, g: nat, i: nat, s: Slot)
    requires Inv(groups) && Locate(groups, p) == Some((g, i))
    requires s.ip == p.ip && (s.port == p.port || s.port == "")
    ensures groups[g][i].ip == p.ip && groups[g][i].port in {p.port, ""}
    ensures SameShape(groups, WithSlot(groups, g, i, s))
    ensures Inv(WithSlot(groups, g, i, s))
    ensures forall q :: IsTracked(WithSlot(groups, g, i, s), q) <==>
              (q != p && IsTracked(groups, q)) || (q == p && s.port != "")
  {
    hide FindGroup, FindSlot;
    var groups': seq<Group> := WithSlot(groups, g, i, s);
    assert g == FindGroup(groups, p.ip);
    assert groups[g][i].ip == p.ip && groups[g][i].port in {p.port, ""};
    OnlyPlaceOf(groups, p, g, i);
    forall h, j | 0 <= h < |groups'| && 0 <= j < |groups'[h]| && groups'[h][j].port != ""
      ensures h == FindGroup(groups', groups'[h][j].ip)
    {
      SameShapeSameGroup(groups, groups', groups'[h][j].ip);
    }
    forall h | 0 <= h < |groups'|
      ensures Unique(groups'[h])
    {
      assert Unique(groups[h]);
      if h == g && s.port != "" {
        forall j | 0 <= j < |groups[g]| && j != i
          ensures !(groups[g][j].ip == s.ip && groups[g][j].port == s.port)
        {
          assert !Holds(groups, g, j, p);
        }
      }
    }
    TrackedAfterWrite(groups, p, g, i, s);
  }

  /** No slot but the located one can hold the peer. */
  lemma OnlyPlaceOf(groups: seq<Group>, p: Peer, g: nat, i: nat)
    requires Inv(groups) && Locate(groups, p) == Some((g, i))
    ensures forall h: nat, j: nat :: Holds(groups, h, j, p) ==> h == g && j == i
  {
    hide FindGroup, FindSlot, Locate, Inv;
    forall h: nat, j: nat | Holds(groups, h, j, p)
      ensures h == g && j == i
    {
      LocateTracked(groups, p, h, j);
    }
  }

  lemma TrackedAfterWrite(groups: seq<Group>, p: Peer, g: nat, i: nat, s: Slot)
    requires g < |groups| && i < |groups[g]| && groups[g][i].ip == s.ip == p.ip
    requires groups[g][i].port in {p.port, ""} && s.port in {p.port, ""}
    requires forall h: nat, j: nat :: Holds(groups, h, j, p) ==> h == g && j == i
    ensures forall q :: IsTracked(WithSlot(groups, g, i, s), q) <==>
              (q != p && IsTracked(groups, q)) || (q == p && s.port != "")
  {
    var groups' := WithSlot(groups, g, i, s);
    forall q
      ensures IsTracked(groups', q) <==> (q != p && IsTracked(groups, q)) || (q == p && s.port != "")
    {
      if IsTracked(groups', q) {
        var h: nat, j: nat :| Holds(groups', h, j, q);
        if h != g || j != i {
          assert Holds(groups, h, j, q);
        }
      }
      if q != p && IsTracked(groups, q) {
        var h: nat, j: nat :| Holds(groups, h, j, q);
        assert Holds(groups', h, j, q);
      }
      if q == p && s.port != "" {
        assert Holds(groups', g, i, q);
      }
    }
  }

  /** One event on the set of tracked peers: a located event adds its peer, or removes it if it is
      the end of the connection; any other changes nothing. Valid for every peer and event. */
  lemma StepTracks(s: State, p: Peer, kind: EventKind)
    requires Inv(s.groups)
    ensures Inv(Step(s, p, kind).groups) && SameShape(s.groups, Step(s, p, kind).groups)
    ensures forall q :: IsTracked(Step(s, p, kind).groups, q) <==>
              if Locate(s.groups, p).Some? && q == p then kind != Closed && p.port != ""
              else IsTracked(s.groups, q)
  {
    hide FindGroup, FindSlot, Inv, Locate, IsTracked, IsAnyConnectionEstablished;
    var at := Locate(s.groups, p);
    if at.Some? {
      var (g, i) := at.value;
      var final := FinalSlot(s.groups[g][i], p, kind);
      LocatedIp(s.groups, p, g, i);
      WriteSlot(s.groups, p, g, i, final);
      assert Step(s, p, kind).groups == WithSlot(s.groups, g, i, final) by {
        StepWrites(s, p, kind, g, i);
      }
    } else {
      assert Step(s, p, kind) == s;
    }
  }

  lemma LocatedIp(groups: seq<Group>, p: Peer, g: nat, i: nat)
    requires Locate(groups, p) == Some((g, i))
    ensures groups[g][i].ip == p.ip
  {
  }

  /** The slot an event leaves behind. */
  function FinalSlot(slot: Slot, p: Peer, kind: EventKind): Slot {
    match kind
    case Opened => slot.(port := p.port)
    case Closed => slot.(port := "")
    case Activated => slot.(port := p.port, active := true)
    case Deactivated => slot.(port := p.port, active := false)
  }

  lemma StepWrites(s: State, p: Peer, kind: EventKind, g: nat, i: nat)
    requires Locate(s.groups, p) == Some((g, i))
    ensures Step(s, p, kind).groups == WithSlot(s.groups, g, i, FinalSlot(s.groups[g][i], p, kind))
  {
    hide FindGroup, FindSlot, IsAnyConnectionEstablished;
    var slot := s.groups[g][i].(port := p.port);
    var final := FinalSlot(s.groups[g][i], p, kind);
    var once: seq<Group> := WithSlot(s.groups, g, i, slot);
    assert once[g][i := final] == s.groups[g][i := final];
    assert WithSlot(once, g, i, final) == WithSlot(s.groups, g, i, final);
  }

  // ---------------------------------------------------------------- capacity

  function Count(group: Group, ip: string): nat {
    if group == [] then 0
    else Count(group[..|group| - 1], ip) + if group[|group| - 1].ip == ip then 1 else 0
  }

  /** How many connections of an address can be tracked: its slots in its first group. */
  function Capacity(groups: seq<Group>, ip: string): nat {
    var g := FindGroup(groups, ip);
    if g == |groups| then 0 else Count(groups[g], ip)
  }

  predicate IsConfigured(groups: seq<Group>, ip: string) {
    FindGroup(groups, ip) < |groups|
  }

  /** The peers of one address that a group holds. */
  ghost function PeersOf(group: Group, ip: string): set<Peer> {
    set i | 0 <= i < |group| && group[i].ip == ip && group[i].port != "" :: Peer(ip, group[i].port)
  }

  lemma PeersOfFront(group: Group, ip: string)
    requires group != []
    ensures var last := group[|group| - 1];
            PeersOf(group, ip) == PeersOf(group[..|group| - 1], ip)
                                + if last.ip == ip && last.port != "" then {Peer(ip, last.port)} else {}
  {
    var front, last := group[..|group| - 1], group[|group| - 1];
    forall q | q in PeersOf(group, ip)
      ensures q in PeersOf(front, ip) || (last.ip == ip && last.port != "" && q == Peer(ip, last.port))
    {
      var i :| 0 <= i < |group| && group[i].ip == ip && group[i].port != "" && q == Peer(ip, group[i].port);
      if i < |front| {
        assert front[i] == group[i];
      }
    }
    forall q | q in PeersOf(front, ip)
      ensures q in PeersOf(group, ip)
    {
      var i :| 0 <= i < |front| && front[i].ip == ip && front[i].port != "" && q == Peer(ip, front[i].port);
      assert group[i] == front[i];
    }
  }

  /** No slot of the address is free. */
  ghost predicate IsFull(group: Group, ip: string) {
    forall i :: 0 <= i < |group| && group[i].ip == ip ==> group[i].port != ""
  }

  lemma FullFront(group: Group, ip: string)
    requires group != []
    ensures var last := group[|group| - 1];
            IsFull(group, ip) <==> IsFull(group[..|group| - 1], ip) && (last.ip == ip ==> last.port != "")
  {
    var n := |group| - 1;
    assert forall i :: 0 <= i < n ==> group[i] == group[..n][i];
  }

  lemma LastIsNew(group: Group, ip: string)
    requires Unique(group) && group != []
    ensures Unique(group[..|group| - 1])
    ensures var last := group[|group| - 1];
            last.ip == ip && last.port != "" ==> Peer(ip, last.port) !in PeersOf(group[..|group| - 1], ip)
  {
  }

  /** The counting argument: unique ports, so as many peers as occupied slots; never more than the
      slots of the address, and as many exactly if none of them is free. */
  lemma {:induction false} CountPeers(group: Group, ip: string)
    requires Unique(group)
    ensures |PeersOf(group, ip)| <= Count(group, ip)
    ensures |PeersOf(group, ip)| == Count(group, ip) <==> IsFull(group, ip)
  {
    if group == [] {
      assert PeersOf(group, ip) == {};
    } else {
      hide PeersOf, IsFull, Unique;
      LastIsNew(group, ip);
      CountPeers(group[..|group| - 1], ip);
      PeersOfFront(group, ip);
      FullFront(group, ip);
    }
  }

  /** What is tracked of an address is what its first group holds of it. */
  lemma TrackedInFirstGroup(groups: seq<Group>, p: Peer)
    requires Inv(groups)
    ensures IsTracked(groups, p) <==>
              IsConfigured(groups, p.ip) && p in PeersOf(groups[FindGroup(groups, p.ip)], p.ip)
  {
    hide FindGroup;
    var g := FindGroup(groups, p.ip);
    if IsTracked(groups, p) {
      var h: nat, i: nat :| Holds(groups, h, i, p);
      assert groups[h][i].port != "";
    }
    if g < |groups| && p in PeersOf(groups[g], p.ip) {
      var i :| 0 <= i < |groups[g]| && groups[g][i].ip == p.ip && groups[g][i].port != ""
               && p == Peer(p.ip, groups[g][i].port);
      assert Holds(groups, g, i, p);
    }
  }

  lemma FoundIsTracked(groups: seq<Group>, g: nat, p: Peer)
    requires g < |groups| && p.port != ""
    ensures FindSlot(groups[g], p.ip, p.port) < |groups[g]| ==> IsTracked(groups, p)
  {
    var own := FindSlot(groups[g], p.ip, p.port);
    if own < |groups[g]| {
      assert Holds(groups, g, own, p);
    }
  }

  /** When a peer finds a slot: it has one, or its address is configured and has fewer tracked
      peers than slots. */
  lemma LocatedIff(groups: seq<Group>, p: Peer)
    requires Inv(groups) && p.port != ""
    ensures Locate(groups, p).Some? <==>
              IsTracked(groups, p)
              || (IsConfigured(groups, p.ip)
                  && |PeersOf(groups[FindGroup(groups, p.ip)], p.ip)| < Capacity(groups, p.ip))
  {
    hide FindGroup, FindSlot;
    if IsTracked(groups, p) {
      var g: nat, i: nat :| Holds(groups, g, i, p);
      LocateTracked(groups, p, g, i);
    } else if IsConfigured(groups, p.ip) {
      var g := FindGroup(groups, p.ip);
      assert Unique(groups[g]);
      CountPeers(groups[g], p.ip);
      FoundIsTracked(groups, g, p);
      var free := FindSlot(groups[g], p.ip, "");
      if free < |groups[g]| {
        assert groups[g][free].ip == p.ip && groups[g][free].port == "";
      }
    }
  }

  // ---------------------------------------------------------------- runs

  datatype Event = Event(peer: Peer, kind: EventKind)

  function Run(s: State, es: seq<Event>): State {
    if es == [] then s
    else Step(Run(s, es[..|es| - 1]), es[|es| - 1].peer, es[|es| - 1].kind)
  }

  /** The connections that are open after these events. */
  function OpenAfter(es: seq<Event>): set<Peer> {
    if es == [] then {}
    else
      var open, e := OpenAfter(es[..|es| - 1]), es[|es| - 1];
      match e.kind
      case Opened => open + {e.peer}
      case Closed => open - {e.peer}
      case _ => open
  }

  /** What the library promises: peers have ports, a connection is opened once, and only an open
      connection is closed, activated or deactivated. */
  ghost predicate IsOrderly(es: seq<Event>) {
    es == [] ||
    (&& IsOrderly(es[..|es| - 1])
     && es[|es| - 1].peer.port != ""
     && (es[|es| - 1].kind == Opened <==> es[|es| - 1].peer !in OpenAfter(es[..|es| - 1])))
  }

  function OfIp(peers: set<Peer>, ip: string): set<Peer> {
    set p | p in peers && p.ip == ip
  }

  /** At no time are more connections of a configured address open than it has slots. */
  ghost predicate WithinCapacity(groups: seq<Group>, es: seq<Event>) {
    && (es != [] ==> WithinCapacity(groups, es[..|es| - 1]))
    && forall ip :: IsConfigured(groups, ip) ==> |OfIp(OpenAfter(es), ip)| <= Capacity(groups, ip)
  }

  /** The slots as configured: no port anywhere. */
  ghost predicate IsFresh(groups: seq<Group>) {
    forall g, i :: 0 <= g < |groups| && 0 <= i < |groups[g]| ==> groups[g][i].port == ""
  }

  lemma FreshIsInv(groups: seq<Group>)
    requires IsFresh(groups)
    ensures Inv(groups) && forall p :: !IsTracked(groups, p)
  {
  }

  /** For any events at all, orderly or not: no two slots of one address hold the same port, and
      slots of an address outside its first group stay empty. */
  lemma {:induction false} SlotsStayUnique(s: State, es: seq<Event>)
    requires IsFresh(s.groups)
    ensures Inv(Run(s, es).groups) && SameShape(s.groups, Run(s, es).groups)
  {
    hide Inv, Step, IsFresh;
    if es == [] {
      FreshIsInv(s.groups);
    } else {
      var front, e := es[..|es| - 1], es[|es| - 1];
      SlotsStayUnique(s, front);
      StepTracks(Run(s, front), e.peer, e.kind);
      ShapeIsTransitive(s.groups, Run(s, front).groups, Run(s, es).groups);
    }
  }

  lemma ShapeIsTransitive(a: seq<Group>, b: seq<Group>, c: seq<Group>)
    requires SameShape(a, b) && SameShape(b, c)
    ensures SameShape(a, c)
  {
  }

  /** Tracked peers are open peers, with or without enough slots. */
  lemma {:induction false} TrackedAreOpen(s: State, es: seq<Event>)
    requires IsFresh(s.groups) && IsOrderly(es)
    ensures forall p :: IsTracked(Run(s, es).groups, p) ==> p in OpenAfter(es)
  {
    hide Inv, Step, IsTracked, IsFresh;
    SlotsStayUnique(s, es);
    if es == [] {
      FreshIsInv(s.groups);
    } else {
      var front, e := es[..|es| - 1], es[|es| - 1];
      SlotsStayUnique(s, front);
      TrackedAreOpen(s, front);
      StepTracks(Run(s, front), e.peer, e.kind);
      if e.kind == Closed && Locate(Run(s, front).groups, e.peer).None? {
        LocatedIff(Run(s, front).groups, e.peer);
      }
    }
  }

  /** Slots track peers: within capacity the tracked peers are exactly the open ones whose address
      is configured. */
  lemma {:induction false} SlotsTrackPeers(s: State, es: seq<Event>)
    requires IsFresh(s.groups) && IsOrderly(es) && WithinCapacity(s.groups, es)
    ensures forall p :: IsTracked(Run(s, es).groups, p) <==> p in OpenAfter(es) && IsConfigured(s.groups, p.ip)
  {
    hide Inv, Step, IsTracked, IsFresh, IsConfigured, Capacity, Locate;
    if es == [] {
      FreshIsInv(s.groups);
    } else {
      var front, e := es[..|es| - 1], es[|es| - 1];
      SlotsStayUnique(s, front);
      SlotsTrackPeers(s, front);
      var groups := Run(s, front).groups;
      StepTracks(Run(s, front), e.peer, e.kind);
      if IsConfigured(s.groups, e.peer.ip) {
        RoomFor(s, groups, front, e);
      } else {
        NotConfiguredNotLocated(s.groups, groups, e.peer);
      }
    }
  }

  /** Tracked peers are the open ones whose address is configured, now and after every prefix. */
  ghost predicate TrackedThroughout(s: State, es: seq<Event>) {
    && (es != [] ==> TrackedThroughout(s, es[..|es| - 1]))
    && forall p :: IsTracked(Run(s, es).groups, p) <==> p in OpenAfter(es) && IsConfigured(s.groups, p.ip)
  }

  /** The bound is exact: the slots track the peers all along if and only if at no time more
      connections of a configured address are open than it has slots. */
  lemma {:induction false} SlotsTrackPeersIff(s: State, es: seq<Event>)
    requires IsFresh(s.groups) && IsOrderly(es)
    ensures TrackedThroughout(s, es) <==> WithinCapacity(s.groups, es)
  {
    hide Inv, Step, IsTracked, IsFresh, IsConfigured, Capacity;
    if es != [] {
      SlotsTrackPeersIff(s, es[..|es| - 1]);
    }
    if WithinCapacity(s.groups, es) {
      SlotsTrackPeers(s, es);
    }
    if TrackedThroughout(s, es) {
      SlotsStayUnique(s, es);
      forall ip | IsConfigured(s.groups, ip)
        ensures |OfIp(OpenAfter(es), ip)| <= Capacity(s.groups, ip)
      {
        TrackedFitSlots(s.groups, Run(s, es).groups, OpenAfter(es), ip);
      }
    }
  }

  lemma TrackedFitSlots(groups: seq<Group>, groups': seq<Group>, open: set<Peer>, ip: string)
    requires Inv(groups') && SameShape(groups, groups') && IsConfigured(groups, ip)
    requires forall p :: IsTracked(groups', p) <==> p in open && IsConfigured(groups, p.ip)
    ensures |OfIp(open, ip)| <= Capacity(groups, ip)
  {
    hide Inv, Holds, FindGroup, IsTracked, Count;
    SameShapeSameCapacity(groups, groups', ip);
    var held := PeersOf(groups'[FindGroup(groups', ip)], ip);
    forall p
      ensures p in held <==> p in OfIp(open, ip)
    {
      if p.ip == ip {
        TrackedInFirstGroup(groups', p);
      }
    }
    assert held == OfIp(open, ip);
    assert Unique(groups'[FindGroup(groups', ip)]) by {
      InvIsUnique(groups', FindGroup(groups', ip));
    }
    CountPeers(groups'[FindGroup(groups', ip)], ip);
  }

  lemma InvIsUnique(groups: seq<Group>, g: nat)
    requires Inv(groups) && g < |groups|
    ensures Unique(groups[g])
  {
  }

  lemma NotConfiguredNotLocated(groups: seq<Group>, groups': seq<Group>, p: Peer)
    requires SameShape(groups, groups') && !IsConfigured(groups, p.ip)
    ensures Locate(groups', p).None?
  {
    SameShapeSameGroup(groups, groups', p.ip);
  }

  lemma SameShapeSameCapacity(a: seq<Group>, b: seq<Group>, ip: string)
    requires SameShape(a, b)
    ensures Capacity(a, ip) == Capacity(b, ip) && (IsConfigured(a, ip) <==> IsConfigured(b, ip))
  {
    SameShapeSameGroup(a, b, ip);
    var g := FindGroup(a, ip);
    if g < |a| {
      SameIpsSameCount(a[g], b[g], ip);
    }
  }

  lemma {:induction false} SameIpsSameCount(a: Group, b: Group, ip: string)
    requires |a| == |b| && forall i :: 0 <= i < |a| ==> a[i].ip == b[i].ip
    ensures Count(a, ip) == Count(b, ip)
  {
    if a != [] {
      SameIpsSameCount(a[..|a| - 1], b[..|b| - 1], ip);
    }
  }

  /** The step of the counting argument: while tracked and open agree and the bound holds after the
      event, the event of a configured peer finds a slot. */
  lemma RoomFor(s: State, groups: seq<Group>, front: seq<Event>, e: Event)
    requires Inv(groups) && SameShape(s.groups, groups) && IsConfigured(s.groups, e.peer.ip)
    requires forall p :: IsTracked(groups, p) <==> p in OpenAfter(front) && IsConfigured(s.groups, p.ip)
    requires IsOrderly(front + [e]) && WithinCapacity(s.groups, front + [e])
    ensures Locate(groups, e.peer).Some?
  {
    hide Inv, Holds, FindGroup, Capacity, IsTracked, Locate;
    assert (front + [e])[..|front|] == front;
    LocatedIff(groups, e.peer);
    SameShapeSameCapacity(s.groups, groups, e.peer.ip);
    if e.kind == Opened {
      var ip := e.peer.ip;
      var held := PeersOf(groups[FindGroup(groups, ip)], ip);
      forall p
        ensures p in held <==> p in OfIp(OpenAfter(front), ip)
      {
        if p.ip == ip {
          TrackedInFirstGroup(groups, p);
        }
      }
      assert held == OfIp(OpenAfter(front), ip);
      assert OfIp(OpenAfter(front + [e]), ip) == OfIp(OpenAfter(front), ip) + {e.peer};
    }
  }

  /** Without the bound, exactly when a newly opened connection is tracked: its address has a slot
      that no tracked connection occupies. */
  lemma OpenedIsTrackedIff(s: State, p: Peer)
    requires Inv(s.groups) && p.port != "" && !IsTracked(s.groups, p)
    ensures IsTracked(Step(s, p, Opened).groups, p) <==>
              IsConfigured(s.groups, p.ip)
              && |PeersOf(s.groups[FindGroup(s.groups, p.ip)], p.ip)| < Capacity(s.groups, p.ip)
  {
    hide Step;
    StepTracks(s, p, Opened);
    LocatedIff(s.groups, p);
  }
}
