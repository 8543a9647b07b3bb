/** The redundancy groups as objects: slots whose port and activity are set in place, and the handler
    of connection events. */
module RedundancyGroups {
  import opened Machine
  import opened SlotSpec

  class RedGroupCon {
    const clientIp: string
    var port: string
    var pathLetter: string
    var isActive: bool

    ghost function View(): Slot
      reads this
    {
      Slot(clientIp, port, pathLetter, isActive)
    }

    constructor (clientIp: string)
      ensures View() == Slot(clientIp, "", "", false)
    {
      this.clientIp := clientIp;
      port, pathLetter, isActive := "", "", false;
    }
  }

  class RedGroup {
    var connections: seq<RedGroupCon>

    ghost function View(): (group: Group)
      reads this, connections
      ensures |group| == |connections|
      ensures forall i :: 0 <= i < |connections| ==> group[i] == connections[i].View()
    {
      seq(|connections|, i requires 0 <= i < |connections| reads this, connections => connections[i].View())
    }

    constructor ()
      ensures connections == []
    {
      connections := [];
    }

    method AddConnection(con: RedGroupCon)
      modifies this
      ensures View() == old(View()) + [con.View()] && connections == old(connections) + [con]
    {
      connections := connections + [con];
    }

    /** Whether some slot of the group is configured for this address. */
    predicate HasClient(ip: string)
      reads this
    {
      exists i :: 0 <= i < |connections| && connections[i].clientIp == ip
    }

    /** The first slot with this address and port, by its position; the number of slots if there
        is none. */
    function GetRedGroupCon(ip: string, port: string): (i: nat)
      reads this, connections
      ensures i == FindSlot(View(), ip, port)
    {
      FirstMatch(connections, ip, port)
    }
  }

  function FirstMatch(cs: seq<RedGroupCon>, ip: string, port: string): (i: nat)
    reads cs
    ensures i <= |cs|
    ensures i < |cs| ==> cs[i].clientIp == ip && cs[i].port == port
    ensures forall j :: 0 <= j < i ==> !(cs[j].clientIp == ip && cs[j].port == port)
  {
    if cs == [] then 0
    else if cs[0].clientIp == ip && cs[0].port == port then 0
    else 1 + FirstMatch(cs[1..], ip, port)
  }

  lemma WithSlotReads(groups: seq<Group>, g: nat, i: nat, s: Slot)
    requires g < |groups| && i < |groups[g]|
    ensures var groups' := WithSlot(groups, g, i, s);
            |groups'| == |groups| && |groups'[g]| == |groups[g]| && groups'[g][i] == s
  {
  }

  /** Every slot object is in one place. */
  ghost predicate NoSlotTwice(groups: seq<RedGroup>)
    reads groups
  {
    forall g, i, h, j | 0 <= g < |groups| && 0 <= h < |groups| ::
      0 <= i < |groups[g].connections| && 0 <= j < |groups[h].connections| ==>
      groups[g].connections[i] == groups[h].connections[j] ==> g == h && i == j
  }

  /** The groups, the last audits sent, and the logs of audits. */
  class ConnectionTracker {
    const groups: seq<RedGroup>
    var lastGlobalAudit: Option<GlobalStatus>
    var lastPathAudit: Option<PathAudit>
    var maxOpenConnections: nat  // the cap that the library is given
    ghost var globalAudits: seq<GlobalStatus>
    ghost var pathAudits: seq<PathAudit>

    ghost predicate Valid()
      reads groups
    {
      NoSlotTwice(groups)
    }

    ghost function Slots(): set<RedGroupCon>
      reads groups
    {
      set g, i | 0 <= g < |groups| && 0 <= i < |groups[g].connections| :: groups[g].connections[i]
    }

    ghost function View(): (view: seq<Group>)
      reads groups, Slots()
      ensures |view| == |groups|
      ensures forall g :: 0 <= g < |groups| ==> view[g] == groups[g].View()
    {
      seq(|groups|, g requires 0 <= g < |groups| reads groups, Slots() => groups[g].View())
    }

    ghost function Abs(): State
      reads this, groups, Slots()
    {
      State(View(), lastGlobalAudit, globalAudits, lastPathAudit, pathAudits)
    }

    /** What is not written stays. */
    twostate lemma Stays()
      requires unchanged(this, groups, old(Slots()))
      ensures Abs() == old(Abs()) && Slots() == old(Slots()) && Valid() == old(Valid())
    {
    }

    constructor (groups: seq<RedGroup>)
      requires NoSlotTwice(groups)
      ensures Valid() && this.groups == groups
      ensures Abs() == State(View(), None, [], None, [])
    {
      this.groups := groups;
      lastGlobalAudit, lastPathAudit, globalAudits, pathAudits, maxOpenConnections := None, None, [], [], 0;
    }

    method SendGlobalStatusAudit(status: GlobalStatus)
      modifies `lastGlobalAudit, `globalAudits
      ensures Abs() == GlobalAudit(old(Abs()), status)
    {
      if Some(status) != lastGlobalAudit {
        globalAudits := globalAudits + [status];
        lastGlobalAudit := Some(status);
      }
    }

    method SendConnectionStatusAudit(audit: PathAudit)
      modifies `lastPathAudit, `pathAudits
      ensures Abs() == SendPathAudit(old(Abs()), audit)
    {
      if Some(audit) != lastPathAudit {
        pathAudits := pathAudits + [audit];
        lastPathAudit := Some(audit);
      }
    }

    /** `isAnyConnectionEstablished`: two nested loops over the ports. */
    method IsAnyEstablished() returns (found: bool)
      ensures found == IsAnyConnectionEstablished(View())
    {
      var g := 0;
      while g < |groups|
        invariant 0 <= g <= |groups|
        invariant forall h, j :: 0 <= h < g && 0 <= j < |groups[h].connections| ==> groups[h].connections[j].port == ""
      {
        var i := 0;
        while i < |groups[g].connections|
          invariant 0 <= i <= |groups[g].connections|
          invariant forall j :: 0 <= j < i ==> groups[g].connections[j].port == ""
        {
          if groups[g].connections[i].port != "" {
            assert View()[g][i].port != "";
            return true;
          }
          i := i + 1;
        }
        g := g + 1;
      }
      return false;
    }

    method GetRedundancyGroup(ip: string) returns (g: nat)
      ensures g == FindGroup(View(), ip)
    {
      g := 0;
      while g < |groups|
        invariant g <= |groups|
        invariant forall h :: 0 <= h < g ==> !HasIp(View()[h], ip)
      {
        assert groups[g].HasClient(ip) <==> HasIp(View()[g], ip) by {
          assert forall i :: 0 <= i < |View()[g]| ==> View()[g][i].ip == groups[g].connections[i].clientIp;
        }
        if groups[g].HasClient(ip) {
          return;
        }
        g := g + 1;
      }
    }

    /** The slots, one by one, show this value. */
    ghost predicate Shows(view: seq<Group>)
      reads groups, Slots()
    {
      && |view| == |groups|
      && forall g :: 0 <= g < |groups| ==>
           && |view[g]| == |groups[g].connections|
           && forall i :: 0 <= i < |view[g]| ==> view[g][i] == groups[g].connections[i].View()
    }

    lemma ShowsOnlyView(view: seq<Group>)
      requires Shows(view)
      ensures View() == view
    {
      forall g | 0 <= g < |groups|
        ensures View()[g] == view[g]
      {
        assert View()[g] == groups[g].View();
      }
    }

    /** Whether `con` is the slot at this place. */
    ghost predicate IsSlot(con: RedGroupCon, g: nat, i: nat)
      reads groups
    {
      g < |groups| && i < |groups[g].connections| && groups[g].connections[i] == con
    }

    method SetPort(con: RedGroupCon, port: string, ghost g: nat, ghost i: nat)
      requires Valid() && IsSlot(con, g, i)
      modifies con`port
      ensures View() == WithSlot(old(View()), g, i, old(View())[g][i].(port := port))
    {
      ghost var was: seq<Group> := View();
      con.port := port;
      assert Shows(WithSlot(was, g, i, was[g][i].(port := port)));
      ShowsOnlyView(WithSlot(was, g, i, was[g][i].(port := port)));
    }

    method SetActive(con: RedGroupCon, active: bool, ghost g: nat, ghost i: nat)
      requires Valid() && IsSlot(con, g, i)
      modifies con`isActive
      ensures View() == WithSlot(old(View()), g, i, old(View())[g][i].(active := active))
    {
      ghost var was: seq<Group> := View();
      con.isActive := active;
      assert Shows(WithSlot(was, g, i, was[g][i].(active := active)));
      ShowsOnlyView(WithSlot(was, g, i, was[g][i].(active := active)));
    }

    /** The first part of the event handler: find the group, then the slot of this port, then a
        free slot, which takes the port. */
    method FindConnection(p: Peer) returns (con: RedGroupCon?, g: nat, i: nat)
      requires Valid()
      modifies Slots()
      ensures Locate(old(View()), p) == if con == null then None else Some((g, i))
      ensures con == null ==> View() == old(View())
      ensures con != null ==>
                IsSlot(con, g, i) && View() == WithSlot(old(View()), g, i, old(View())[g][i].(port := p.port))
    {
      hide FindGroup, FindSlot, HasIp, NoSlotTwice;
      ghost var was: seq<Group> := View();
      i := 0;
      g := GetRedundancyGroup(p.ip);
      assert Shows(was);
      ShowsOnlyView(was);
      if g == |groups| {
        return null, g, i;
      }
      i := groups[g].GetRedGroupCon(p.ip, p.port);
      if i == |groups[g].connections| {
        i := groups[g].GetRedGroupCon(p.ip, "");
        if i == |groups[g].connections| {
          return null, g, i;
        }
        con := groups[g].connections[i];
        assert con in Slots();
        SetPort(con, p.port, g, i);
      } else {
        con := groups[g].connections[i];
        assert was[g][i := was[g][i].(port := p.port)] == was[g];
      }
    }

    /** The branch of the event handler for a closed connection. */
    method OnClosed(con: RedGroupCon, g: nat, ghost i: nat)
      requires Valid() && IsSlot(con, g, i)
      modifies this, con`port
      ensures Abs() == Apply(old(Abs()), g, i, Closed)
    {
      hide IsAnyConnectionEstablished, WithSlot, NoSlotTwice;
      assert con.pathLetter == View()[g][i].letter;
      SendConnectionStatusAudit(PathAudit(PathDisconnected, g, con.pathLetter));
      SetPort(con, "", g, i);
      ghost var closed: seq<Group> := View();
      var established := IsAnyEstablished();
      assert Shows(closed);
      ShowsOnlyView(closed);
      if !established {
        SendGlobalStatusAudit(Disconnected);
      }
    }

    /** `connectionEventHandler`, up to the removal of the connection's outstanding commands, which
        the caller does if `cleansUp`; slots, audits and commands do not depend on each other. */
    method HandleEvent(address: string, kind: EventKind) returns (cleansUp: bool)
      requires Valid()
      modifies this, Slots()
      ensures Abs() == Step(old(Abs()), PeerOf(address), kind)
      ensures cleansUp == CleansUp(old(View()), PeerOf(address), kind)
    {
      hide Locate, WithSlot, IsAnyConnectionEstablished, NoSlotTwice, Apply, PeerOf;
      ghost var was: seq<Group> := View();
      var p := PeerOf(address);
      var con, g, i := FindConnection(p);
      if con == null {
        return false;
      }
      WithSlotReads(was, g, i, was[g][i].(port := p.port));
      assert con in Slots();
      cleansUp := kind == Closed || kind == Deactivated;
      if kind == Closed {
        OnClosed(con, g, i);
      } else {
        OnOther(con, g, i, kind);
      }
    }

    /** The other branches. */
    method OnOther(con: RedGroupCon, g: nat, ghost i: nat, kind: EventKind)
      requires Valid() && IsSlot(con, g, i) && kind != Closed
      modifies this, con`isActive
      ensures Abs() == Apply(old(Abs()), g, i, kind)
    {
      hide IsAnyConnectionEstablished, WithSlot, NoSlotTwice;
      assert con.pathLetter == View()[g][i].letter;
      if kind == Opened {
        SendConnectionStatusAudit(PathAudit(PathPassive, g, con.pathLetter));
      } else if kind == Activated {
        SendConnectionStatusAudit(PathAudit(PathActive, g, con.pathLetter));
        SendGlobalStatusAudit(Connected);
        SetActive(con, true, g, i);
      } else {
        SendConnectionStatusAudit(PathAudit(PathPassive, g, con.pathLetter));
        SetActive(con, false, g, i);
      }
    }

    // ---------------------------------------------------------------- the start

    ghost function Log(): PathLog
      reads `lastPathAudit, `pathAudits
    {
      PathLog(lastPathAudit, pathAudits)
    }

    method SendNext(audit: PathAudit, ghost log: PathLog, ghost audits: seq<PathAudit>)
      requires Log() == Logged(log, audits)
      modifies `lastPathAudit, `pathAudits
      ensures Log() == Logged(log, audits + [audit])
    {
      assert (audits + [audit])[..|audits|] == audits;
      SendConnectionStatusAudit(audit);
    }

    method SetPathLetter(con: RedGroupCon, letter: string, ghost g: nat, ghost i: nat)
      requires Valid() && IsSlot(con, g, i)
      modifies con`pathLetter
      ensures View() == WithSlot(old(View()), g, i, old(View())[g][i].(letter := letter)) && con.pathLetter == letter
    {
      ghost var was: seq<Group> := View();
      con.pathLetter := letter;
      assert Shows(WithSlot(was, g, i, was[g][i].(letter := letter)));
      ShowsOnlyView(WithSlot(was, g, i, was[g][i].(letter := letter)));
    }

    /** The first `n` slots of a group are lettered and audited. */
    ghost predicate SlotsStarted(was: seq<Group>, log: PathLog, g: nat, n: nat)
      reads this, groups, Slots()
    {
      && g < |was| && View() == was[g := LetteredFront(was[g], n)]
      && Log() == Logged(log, FirstAudits(g, n))
    }

    method StartSlot(con: RedGroupCon, g: nat, i: nat, ghost was: seq<Group>, ghost log: PathLog)
      requires Valid() && IsSlot(con, g, i) && SlotsStarted(was, log, g, i)
      modifies con`pathLetter, `lastPathAudit, `pathAudits
      ensures SlotsStarted(was, log, g, i + 1)
    {
      hide NoSlotTwice, Logged;
      SetPathLetter(con, if i == 0 then "A" else "B", g, i);
      ghost var view: seq<Group> := was[g := LetteredFront(was[g], i + 1)];
      assert View()[g] == view[g];
      assert View() == view;
      SendNext(PathAudit(PathDisconnected, g, con.pathLetter), log, FirstAudits(g, i));
      assert Shows(view);
      ShowsOnlyView(view);
    }

    lemma NoSlotStarted(g: nat)
      requires g < |groups|
      ensures SlotsStarted(View(), Log(), g, 0)
    {
      assert LetteredFront(View()[g], 0) == View()[g];
      NothingLogged(Log());
    }

    lemma SlotIsInSlots(g: nat, i: nat)
      requires g < |groups| && i < |groups[g].connections|
      ensures groups[g].connections[i] in Slots()
    {
    }

    /** The loop over the slots of one group: letters, and the audit "disconnected" for each. */
    method StartSlots(g: nat)
      requires Valid() && g < |groups|
      modifies Slots(), `lastPathAudit, `pathAudits
      ensures SlotsStarted(old(View()), old(Log()), g, |groups[g].connections|)
    {
      hide NoSlotTwice, SlotsStarted, Logged, LetteredFront, Slots, View, Log, Valid;
      ghost var was, log := View(), Log();
      var i := 0;
      NoSlotStarted(g);
      while i < |groups[g].connections|
        invariant 0 <= i <= |groups[g].connections| && SlotsStarted(was, log, g, i)
      {
        SlotIsInSlots(g, i);
        StartSlot(groups[g].connections[i], g, i, was, log);
        i := i + 1;
      }
    }

    /** The audits of one group at start. */
    method StartGroup(g: nat)
      requires Valid() && g < |groups|
      modifies Slots(), `lastPathAudit, `pathAudits
      ensures View() == old(View())[g := LetteredFront(old(View())[g], |old(View())[g]|)]
      ensures Log() == Logged(old(Log()), GroupAudits(g, |groups[g].connections|))
    {
      hide Logged, NoSlotTwice, FirstAudits, LetteredFront;
      StartSlots(g);
      ghost var view: seq<Group> := View();
      AuditUnused(g, old(Log()));
      assert Shows(view);
      ShowsOnlyView(view);
    }

    /** The audits of the paths of a group that have no slot. */
    method AuditUnused(g: nat, ghost log: PathLog)
      requires g < |groups| && Log() == Logged(log, FirstAudits(g, |groups[g].connections|))
      modifies `lastPathAudit, `pathAudits
      ensures Log() == Logged(log, GroupAudits(g, |groups[g].connections|))
    {
      hide Logged, FirstAudits;
      var n := |groups[g].connections|;
      ghost var audits := FirstAudits(g, n);
      if n == 0 {
        SendNext(PathAudit(PathUnused, g, "A"), log, audits);
        SendNext(PathAudit(PathUnused, g, "B"), log, audits + [PathAudit(PathUnused, g, "A")]);
        assert GroupAudits(g, n) == audits + [PathAudit(PathUnused, g, "A")] + [PathAudit(PathUnused, g, "B")];
      } else if n == 1 {
        SendNext(PathAudit(PathUnused, g, "B"), log, audits);
      } else {
        assert GroupAudits(g, n) == audits;
      }
    }

    /** The first `n` groups are lettered and audited. */
    ghost predicate GroupsStarted(was: seq<Group>, log: PathLog, n: nat)
      reads this, groups, Slots()
    {
      && |was| == |groups| && n <= |was|
      && (forall h :: 0 <= h < |was| ==> View()[h] == if h < n then LetteredFront(was[h], |was[h]|) else was[h])
      && Log() == Logged(log, ConfiguredAudits(was[..n]))
    }

    lemma NoGroupStarted()
      ensures GroupsStarted(View(), Log(), 0)
    {
      assert View()[..0] == [];
      NothingLogged(Log());
    }

    /** What starting one more group adds. */
    lemma NextGroupStarted(g: nat, was: seq<Group>, log: PathLog, view: seq<Group>, logBefore: PathLog)
      requires |was| == |groups| == |view| && g < |was|
      requires forall h :: 0 <= h < |was| ==> view[h] == if h < g then LetteredFront(was[h], |was[h]|) else was[h]
      requires logBefore == Logged(log, ConfiguredAudits(was[..g]))
      requires View() == view[g := LetteredFront(view[g], |view[g]|)]
      requires Log() == Logged(logBefore, GroupAudits(g, |was[g]|))
      ensures GroupsStarted(was, log, g + 1)
    {
      ConfiguredNext(was, g);
      LoggedAppend(log, ConfiguredAudits(was[..g]), GroupAudits(g, |was[g]|));
      hide Logged, GroupAudits, LetteredFront, View, Log, ConfiguredAudits;
    }

    method StartNextGroup(g: nat, ghost was: seq<Group>, ghost log: PathLog)
      requires Valid() && g < |groups| && GroupsStarted(was, log, g)
      modifies Slots(), `lastPathAudit, `pathAudits
      ensures GroupsStarted(was, log, g + 1)
    {
      hide NoSlotTwice, Logged, GroupAudits, LetteredFront, Log, Slots, Valid;
      ghost var view, logBefore := View(), Log();
      assert |groups[g].connections| == |was[g]|;
      StartGroup(g);
      NextGroupStarted(g, was, log, view, logBefore);
    }

    /** The loop over the configured groups, which also counts their slots. */
    method StartGroups() returns (total: nat)
      requires Valid()
      modifies Slots(), `lastPathAudit, `pathAudits
      ensures GroupsStarted(old(View()), old(Log()), |groups|) && total == TotalSlots(old(View()))
    {
      hide NoSlotTwice, GroupsStarted, Logged, LetteredFront, Slots, View, Log, Valid;
      ghost var was, log := View(), Log();
      var g := 0;
      total := 0;
      NoGroupStarted();
      assert was[..0] == [];
      while g < |groups|
        invariant 0 <= g <= |groups| && GroupsStarted(was, log, g) && total == TotalSlots(was[..g])
      {
        assert was[..g + 1][..g] == was[..g];
        SlotsOfStarted(was, log, g);
        total := total + |groups[g].connections|;
        StartNextGroup(g, was, log);
        g := g + 1;
      }
      assert was[..g] == was;
    }

    lemma SlotsOfStarted(was: seq<Group>, log: PathLog, g: nat)
      requires g < |groups| && GroupsStarted(was, log, g)
      ensures |was[g]| == |groups[g].connections|
    {
    }

    lemma AllStarted(was: seq<Group>, log: PathLog)
      requires GroupsStarted(was, log, |groups|)
      ensures View() == Lettered(was) && Log() == Logged(log, ConfiguredAudits(was))
    {
      assert was[..|was|] == was;
    }

    /** The loop over the groups that are not configured. */
    method NameUnusedGroups(maxGroups: nat)
      modifies `lastPathAudit, `pathAudits
      ensures Log() == Logged(old(Log()), UnusedAudits(|groups|, maxGroups))
    {
      hide Logged;
      var g := |groups|;
      assert Log() == Logged(old(Log()), []) by {
        NothingLogged(Log());
      }
      while g < maxGroups
        invariant |groups| <= g && (g <= maxGroups || g == |groups|)
        invariant Log() == Logged(old(Log()), UnusedAudits(|groups|, g))
      {
        ghost var audits := UnusedAudits(|groups|, g);
        SendNext(PathAudit(PathUnused, g, "A"), old(Log()), audits);
        SendNext(PathAudit(PathUnused, g, "B"), old(Log()), audits + [PathAudit(PathUnused, g, "A")]);
        assert UnusedAudits(|groups|, g + 1)
            == audits + [PathAudit(PathUnused, g, "A")] + [PathAudit(PathUnused, g, "B")];
        g := g + 1;
      }
    }

    /** The path audits of the start. */
    method StartPaths(maxGroups: nat)
      requires Valid()
      modifies Slots(), `lastPathAudit, `pathAudits, `maxOpenConnections
      ensures View() == Lettered(old(View())) && maxOpenConnections == TotalSlots(old(View()))
      ensures Log() == Logged(old(Log()), ConfiguredAudits(old(View())) + UnusedAudits(|groups|, maxGroups))
    {
      hide NoSlotTwice, Logged, Lettered, ConfiguredAudits, UnusedAudits, GroupsStarted, TotalSlots;
      ghost var was, log := View(), Log();
      var total := StartGroups();
      AllStarted(was, log);
      ghost var view: seq<Group> := View();
      maxOpenConnections := total;
      NameUnusedGroups(maxGroups);
      LoggedAppend(log, ConfiguredAudits(was), UnusedAudits(|groups|, maxGroups));
      assert Shows(view);
      ShowsOnlyView(view);
    }

    /** What is left to do after them. */
    lemma PathsStarted(was: seq<Group>, maxGroups: nat)
      requires View() == Lettered(was) && |was| == |groups|
      requires Log() == Logged(PathLog(None, []), ConfiguredAudits(was) + UnusedAudits(|groups|, maxGroups))
      requires lastGlobalAudit == None && globalAudits == []
      ensures GlobalAudit(Abs(), Disconnected) == Started(was, maxGroups)
    {
    }

    /** `sendInitialAudits`: letters and audits of the configured groups, the cap on connections, audits
        of the other groups, and the first global audit. */
    method SendInitialAudits(maxGroups: nat)
      requires Valid() && lastGlobalAudit == None && globalAudits == [] && Log() == PathLog(None, [])
      modifies this, Slots()
      ensures Abs() == Started(old(View()), maxGroups) && maxOpenConnections == TotalSlots(old(View()))
    {
      hide NoSlotTwice, Valid, Abs, Log, Slots, Started, Logged, Lettered, ConfiguredAudits, UnusedAudits, TotalSlots;
      StartPaths(maxGroups);
      PathsStarted(old(View()), maxGroups);
      SendGlobalStatusAudit(Disconnected);
    }
  }

  lemma ConfiguredNext(groups: seq<Group>, g: nat)
    requires g < |groups|
    ensures ConfiguredAudits(groups[..g + 1]) == ConfiguredAudits(groups[..g]) + GroupAudits(g, |groups[g]|)
  {
    assert groups[..g + 1][..g] == groups[..g];
  }

  lemma NothingLogged(log: PathLog)
    ensures Logged(log, []) == log
  {
  }

  lemma {:induction false} LoggedAppend(log: PathLog, a: seq<PathAudit>, b: seq<PathAudit>)
    ensures Logged(log, a + b) == Logged(Logged(log, a), b)
  {
    if b == [] {
      assert a + b == a;
    } else {
      assert (a + b)[..|a + b| - 1] == a + b[..|b| - 1];
      LoggedAppend(log, a, b[..|b| - 1]);
    }
  }

  // ---------------------------------------------------------------- the import

  /** The connections of one configured group: addresses that are not valid are left out. */
  method ImportGroup(clients: seq<Client>) returns (group: RedGroup)
    ensures fresh(group) && fresh(group.connections) && group.View() == SlotsOf(clients)
    ensures forall i, j :: 0 <= i < j < |group.connections| ==> group.connections[i] != group.connections[j]
  {
    group := new RedGroup();
    var n := 0;
    assert clients[..0] == [];
    while n < |clients|
      invariant 0 <= n <= |clients| && fresh(group) && fresh(group.connections)
      invariant group.View() == SlotsOf(clients[..n])
      invariant forall i, j :: 0 <= i < j < |group.connections| ==> group.connections[i] != group.connections[j]
    {
      assert clients[..n + 1][..n] == clients[..n];
      match clients[n] {
        case Ignored =>
        case Client(ip) =>
          ghost var before: Group := group.View();
          var con := new RedGroupCon(ip);
          assert group.View() == before;
          group.AddConnection(con);
      }
      n := n + 1;
    }
    assert clients[..n] == clients;
  }

  /** `importRedundancyGroups`: groups without a name are skipped. */
  method ImportGroups(entries: seq<GroupEntry>) returns (groups: seq<RedGroup>)
    ensures fresh(groups) && forall g, i :: 0 <= g < |groups| && 0 <= i < |groups[g].connections| ==>
              fresh(groups[g].connections[i])
    ensures NoSlotTwice(groups) && |groups| == |GroupsOf(entries)|
    ensures forall g :: 0 <= g < |groups| ==> groups[g].View() == GroupsOf(entries)[g]
  {
    hide SlotsOf;
    groups := [];
    var n := 0;
    assert entries[..0] == [];
    while n < |entries|
      invariant 0 <= n <= |entries| && fresh(groups)
      invariant forall g, i :: 0 <= g < |groups| && 0 <= i < |groups[g].connections| ==> fresh(groups[g].connections[i])
      invariant NoSlotTwice(groups) && |groups| == |GroupsOf(entries[..n])|
      invariant forall g :: 0 <= g < |groups| ==> groups[g].View() == GroupsOf(entries[..n])[g]
    {
      assert entries[..n + 1][..n] == entries[..n];
      match entries[n] {
        case Nameless =>
        case GroupEntry(clients) =>
          var group := ImportGroup(clients);
          groups := groups + [group];
      }
      n := n + 1;
    }
    assert entries[..n] == entries;
  }
}
