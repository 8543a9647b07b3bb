/** What a connection event, and the start, do to slots, audits and outstanding commands, read off the
    slots themselves. */
module EventTheorems {
  import opened Machine
  import opened SlotSpec
  import PendingRuns
  import PendingSpec
  import RedundancyGroups
  import ServerSpec
  import SlotAudits
  import SlotTracking

  // ---------------------------------------------------------------- the slot of an event

  ghost predicate IsFirstGroup(groups: seq<Group>, ip: string, g: nat) {
    && g < |groups| && (exists i :: 0 <= i < |groups[g]| && groups[g][i].ip == ip)
    && forall h, i :: 0 <= h < g && 0 <= i < |groups[h]| ==> groups[h][i].ip != ip
  }

  predicate IsFirstSlot(group: Group, ip: string, port: string, i: nat) {
    && i < |group| && group[i].ip == ip && group[i].port == port
    && forall j :: 0 <= j < i ==> group[j].ip != ip || group[j].port != port
  }

  predicate HasSlot(group: Group, ip: string, port: string) {
    exists i :: 0 <= i < |group| && group[i].ip == ip && group[i].port == port
  }

  /** The slot an event works on: in the first group with a slot for the address, the one that holds
      the port, or the first free one of the address if none does. */
  ghost predicate IsPlaceOf(groups: seq<Group>, p: Peer, g: nat, i: nat) {
    && IsFirstGroup(groups, p.ip, g)
    && if HasSlot(groups[g], p.ip, p.port) then IsFirstSlot(groups[g], p.ip, p.port, i)
       else IsFirstSlot(groups[g], p.ip, "", i)
  }

  lemma FirstGroupInWords(groups: seq<Group>, ip: string, g: nat)
    ensures IsFirstGroup(groups, ip, g) <==> g == FindGroup(groups, ip) < |groups|
  {
    var f := FindGroup(groups, ip);
    if f < |groups| {
      var i :| 0 <= i < |groups[f]| && groups[f][i].ip == ip;
      assert forall h :: 0 <= h < f ==> !HasIp(groups[h], ip);
    }
    if IsFirstGroup(groups, ip, g) {
      assert HasIp(groups[g], ip);
    }
  }

  lemma FirstSlotInWords(group: Group, ip: string, port: string, i: nat)
    ensures IsFirstSlot(group, ip, port, i) <==> i == FindSlot(group, ip, port) < |group|
    ensures HasSlot(group, ip, port) <==> FindSlot(group, ip, port) < |group|
  {
  }

  lemma LocateInWords(groups: seq<Group>, p: Peer, g: nat, i: nat)
    ensures Locate(groups, p) == Some((g, i)) <==> IsPlaceOf(groups, p, g, i)
  {
    FirstGroupInWords(groups, p.ip, g);
    hide FindGroup, FindSlot, IsFirstGroup, IsFirstSlot, HasSlot;
    if g < |groups| {
      FirstSlotInWords(groups[g], p.ip, p.port, i);
      FirstSlotInWords(groups[g], p.ip, "", i);
    }
  }

  // ---------------------------------------------------------------- what an event does

  /** The log after an audit: unless the audit repeats the last one, it is appended. */
  ghost predicate IsLogged<T>(log: seq<T>, audit: T, log': seq<T>) {
    log' == if log != [] && log[|log| - 1] == audit then log else log + [audit]
  }

  /** The slots after an event: one is written, in port and activity, and no other. */
  ghost predicate OneSlotWritten(groups: seq<Group>, groups': seq<Group>, p: Peer, kind: EventKind, g: nat, i: nat)
    requires g < |groups| && i < |groups[g]|
  {
    && |groups'| == |groups| && (forall h :: 0 <= h < |groups| ==> |groups'[h]| == |groups[h]|)
    && (forall h, j :: 0 <= h < |groups| && 0 <= j < |groups[h]| && (h != g || j != i) ==>
          groups'[h][j] == groups[h][j])
    && var slot, slot' := groups[g][i], groups'[g][i];
       && slot'.ip == slot.ip && slot'.letter == slot.letter && slot'.port == (if kind == Closed then "" else p.port)
       && (slot'.active <==> kind == Activated || (kind != Deactivated && slot.active))
  }

  lemma SlotIsWritten(groups: seq<Group>, p: Peer, kind: EventKind, g: nat, i: nat)
    requires g < |groups| && i < |groups[g]|
    ensures OneSlotWritten(groups, WithSlot(groups, g, i, SlotTracking.FinalSlot(groups[g][i], p, kind)), p, kind, g, i)
  {
  }

  /** The path audit of an event: active when activated, disconnected when closed, passive otherwise. */
  ghost predicate PathIsAudited(s: State, t: State, kind: EventKind, g: nat, i: nat)
    requires g < |s.groups| && i < |s.groups[g]|
  {
    var status := match kind
                  case Activated => PathActive
                  case Closed => PathDisconnected
                  case Opened => PathPassive
                  case Deactivated => PathPassive;
    IsLogged(s.pathAudits, PathAudit(status, g, s.groups[g][i].letter), t.pathAudits)
  }

  lemma PathAuditInWords(s: State, p: Peer, kind: EventKind, g: nat, i: nat)
    requires SlotAudits.AuditInv(s) && Locate(s.groups, p) == Some((g, i))
    ensures PathIsAudited(s, Step(s, p, kind), kind, g, i)
  {
    hide Locate, IsAnyConnectionEstablished;
  }

  /** Whether any slot but this one is occupied. */
  ghost predicate OthersAreFree(groups: seq<Group>, g: nat, i: nat) {
    forall h, j :: 0 <= h < |groups| && 0 <= j < |groups[h]| ==> (h == g && j == i) || groups[h][j].port == ""
  }

  lemma EstablishedAfter(groups: seq<Group>, g: nat, i: nat, slot: Slot)
    requires g < |groups| && i < |groups[g]| && slot.port == ""
    ensures IsAnyConnectionEstablished(WithSlot(groups, g, i, slot)) <==> !OthersAreFree(groups, g, i)
  {
    var groups' := WithSlot(groups, g, i, slot);
    if h, j :| 0 <= h < |groups| && 0 <= j < |groups[h]| && (h != g || j != i) && groups[h][j].port != "" {
      assert groups'[h][j] == groups[h][j];
    }
  }

  /** The global audit of an event: connected when activated, disconnected when the last occupied slot
      is closed, none otherwise. */
  ghost predicate GlobalIsAudited(s: State, t: State, kind: EventKind, g: nat, i: nat) {
    if kind == Activated then IsLogged(s.globalAudits, Connected, t.globalAudits)
    else if kind == Closed && OthersAreFree(s.groups, g, i) then IsLogged(s.globalAudits, Disconnected, t.globalAudits)
    else t.globalAudits == s.globalAudits
  }

  lemma GlobalAuditInWords(s: State, p: Peer, kind: EventKind, g: nat, i: nat)
    requires SlotAudits.AuditInv(s) && Locate(s.groups, p) == Some((g, i))
    ensures GlobalIsAudited(s, Step(s, p, kind), kind, g, i)
  {
    hide Locate, IsAnyConnectionEstablished, OthersAreFree;
    SlotTracking.StepWrites(s, p, kind, g, i);
    if kind == Closed {
      EstablishedAfter(s.groups, g, i, SlotTracking.FinalSlot(s.groups[g][i], p, kind));
    }
    hide WithSlot;
  }

  /** An event writes the slot it finds and no other, says so for the path, and turns the global
      status. */
  lemma EventInWords(s: State, p: Peer, kind: EventKind, g: nat, i: nat)
    requires SlotAudits.AuditInv(s) && IsPlaceOf(s.groups, p, g, i)
    ensures var t := Step(s, p, kind);
            && OneSlotWritten(s.groups, t.groups, p, kind, g, i)
            && PathIsAudited(s, t, kind, g, i) && GlobalIsAudited(s, t, kind, g, i)
  {
    LocateInWords(s.groups, p, g, i);
    hide Locate, IsPlaceOf, Step, SlotAudits.AuditInv, OthersAreFree, OneSlotWritten, PathIsAudited, GlobalIsAudited,
         WithSlot, SlotTracking.FinalSlot;
    SlotTracking.StepWrites(s, p, kind, g, i);
    SlotIsWritten(s.groups, p, kind, g, i);
    PathAuditInWords(s, p, kind, g, i);
    GlobalAuditInWords(s, p, kind, g, i);
  }

  /** An event without such a slot changes nothing. */
  lemma WithoutSlotNothingHappens(s: State, p: Peer, kind: EventKind)
    ensures (forall g: nat, i: nat :: !IsPlaceOf(s.groups, p, g, i)) ==> Step(s, p, kind) == s
  {
    var at := Locate(s.groups, p);
    if at.Some? {
      LocateInWords(s.groups, p, at.value.0, at.value.1);
    }
    hide Locate, IsPlaceOf;
  }

  /** The end of a connection or of its activation takes exactly its commands out of the table, if a
      slot is found; any other event leaves the table alone. No event sends a frame, an answer or a
      message, or touches anything but slots, audits and table. */
  lemma CommandsOfConnection(cfg: ServerSpec.Config, s: ServerSpec.State, con: ServerSpec.Connection, p: Peer,
                             kind: EventKind)
    ensures var t := ServerSpec.Step(cfg, s, ServerSpec.ConnectionEvent(con, p, kind));
            && (if (kind == Closed || kind == Deactivated)
                   && exists g: nat, i: nat :: IsPlaceOf(s.slots.groups, p, g, i)
                then (forall c :: c in t.pending.pending <==> c in s.pending.pending && c.con != con)
                     && t.pending.sent == s.pending.sent && t.pending.arrived == s.pending.arrived
                else t.pending == s.pending)
            && t == s.(slots := t.slots, pending := t.pending) && t.slots == Step(s.slots, p, kind)
  {
    var at := Locate(s.slots.groups, p);
    forall g: nat, i: nat
      ensures at == Some((g, i)) <==> IsPlaceOf(s.slots.groups, p, g, i)
    {
      LocateInWords(s.slots.groups, p, g, i);
    }
    hide Locate, IsPlaceOf, Step, PendingSpec.Kept, PendingSpec.Dropped;
    if at.Some? {
      assert IsPlaceOf(s.slots.groups, p, at.value.0, at.value.1);
    }
    PendingRuns.KeptMembers(s.pending.pending, PendingSpec.Lose(con));
  }

  /** When the server is stopped nothing stays pending, and nothing is sent for it. */
  lemma ShutdownEmptiesTheTable(cfg: ServerSpec.Config, s: ServerSpec.State)
    ensures var t := ServerSpec.Step(cfg, s, ServerSpec.Shutdown);
            t.pending.pending == [] && t.pending.sent == s.pending.sent && t == s.(pending := t.pending)
  {
    PendingRuns.KeptMembers(s.pending.pending, PendingSpec.RemoveAll);
    hide PendingSpec.Kept, PendingSpec.Dropped;
    NothingInIt(PendingSpec.Kept(s.pending.pending, PendingSpec.RemoveAll));
  }

  lemma NothingInIt<T>(s: seq<T>)
    ensures (forall x :: x !in s) ==> s == []
  {
    if s != [] {
      assert s[0] in s;
    }
  }

  // ---------------------------------------------------------------- the start

  /** The import makes a group of every entry with a name, in order, and in it a free slot of every
      connection with a valid address, in order: it does so entry by entry. */
  lemma {:induction false} SlotsOfParts(a: seq<Client>, b: seq<Client>, ip: ClientIp)
    ensures SlotsOf(a + b) == SlotsOf(a) + SlotsOf(b)
    ensures SlotsOf([]) == [] && SlotsOf([Ignored]) == [] && SlotsOf([Client(ip)]) == [Slot(ip, "", "", false)]
  {
    assert [Client(ip)][..0] == [] && [Ignored][..0] == [];
    if b == [] {
      assert a + b == a;
    } else {
      assert (a + b)[..|a + b| - 1] == a + b[..|b| - 1];
      SlotsOfParts(a, b[..|b| - 1], ip);
    }
  }

  lemma {:induction false} GroupsOfParts(a: seq<GroupEntry>, b: seq<GroupEntry>, clients: seq<Client>)
    ensures GroupsOf(a + b) == GroupsOf(a) + GroupsOf(b)
    ensures GroupsOf([]) == [] && GroupsOf([Nameless]) == [] && GroupsOf([GroupEntry(clients)]) == [SlotsOf(clients)]
  {
    hide SlotsOf;
    assert [GroupEntry(clients)][..0] == [] && [Nameless][..0] == [];
    if b == [] {
      assert a + b == a;
    } else {
      assert (a + b)[..|a + b| - 1] == a + b[..|b| - 1];
      GroupsOfParts(a, b[..|b| - 1], clients);
    }
  }

  /** The cap on connections is the number of all slots. */
  lemma {:induction false} CapOfParts(a: seq<Group>, b: seq<Group>, group: Group)
    ensures TotalSlots(a + b) == TotalSlots(a) + TotalSlots(b)
    ensures TotalSlots([]) == 0 && TotalSlots([group]) == |group|
  {
    assert [group][..0] == [];
    if b == [] {
      assert a + b == a;
    } else {
      assert (a + b)[..|a + b| - 1] == a + b[..|b| - 1];
      CapOfParts(a, b[..|b| - 1], group);
    }
  }

  /** The audit of a path that has a slot, or has none. */
  function FirstAudit(g: nat, letter: string, isUsed: bool): PathAudit {
    PathAudit(if isUsed then PathDisconnected else PathUnused, g, letter)
  }

  /** One audit for path A and one for path B of each of `n` groups, in order. */
  ghost predicate AreFirstAudits(audits: seq<PathAudit>, groups: seq<Group>, n: nat) {
    && |audits| == 2 * n
    && forall g: nat :: g < n ==>
         && audits[2 * g] == FirstAudit(g, "A", g < |groups| && |groups[g]| >= 1)
         && audits[2 * g + 1] == FirstAudit(g, "B", g < |groups| && |groups[g]| >= 2)
  }

  ghost predicate IsLog(log: PathLog) {
    log.last == if log.all == [] then None else Some(log.all[|log.all| - 1])
  }

  lemma {:induction false} FirstAuditsAt(g: nat, n: nat)
    ensures |FirstAudits(g, n)| == n
    ensures n > 0 ==> FirstAudits(g, n)[..n - 1] == FirstAudits(g, n - 1)
    ensures n > 0 ==> FirstAudits(g, n)[n - 1] == FirstAudit(g, if n == 1 then "A" else "B", true)
  {
    if n > 0 {
      FirstAuditsAt(g, n - 1);
    }
  }

  /** Slots beyond the second one of a group repeat the audit of path B, which is not sent again. */
  lemma {:induction false} FirstAuditsOfSlots(log: PathLog, g: nat, n: nat)
    requires n >= 1 && (log.last.Some? ==> log.last.value.group != g)
    ensures Logged(log, FirstAudits(g, n))
         == var a, b := FirstAudit(g, "A", true), FirstAudit(g, "B", true);
            if n == 1 then PathLog(Some(a), log.all + [a]) else PathLog(Some(b), log.all + [a] + [b])
  {
    FirstAuditsAt(g, n);
    hide FirstAudits;
    if n == 1 {
      assert FirstAudits(g, 1)[..0] == [] && Logged(log, []) == log;
    } else {
      FirstAuditsOfSlots(log, g, n - 1);
      assert "A" != "B";
    }
  }

  lemma OneLogged(log: PathLog, audit: PathAudit)
    requires log.last != Some(audit)
    ensures Logged(log, [audit]) == PathLog(Some(audit), log.all + [audit])
  {
    assert [audit][..0] == [] && Logged(log, []) == log;
  }

  lemma TwoLogged(log: PathLog, a: PathAudit, b: PathAudit)
    requires log.last != Some(a) && a != b
    ensures Logged(log, [a, b]) == PathLog(Some(b), log.all + [a] + [b])
  {
    assert [a, b][..1] == [a] && [a][..0] == [] && Logged(log, []) == log;
  }

  /** The audits of one group, whatever the number of its slots. */
  lemma GroupAuditsLogged(log: PathLog, g: nat, n: nat)
    requires log.last.Some? ==> log.last.value.group != g
    ensures var a, b := FirstAudit(g, "A", n >= 1), FirstAudit(g, "B", n >= 2);
            Logged(log, GroupAudits(g, n)) == PathLog(Some(b), log.all + [a] + [b])
  {
    var a, b := FirstAudit(g, "A", n >= 1), FirstAudit(g, "B", n >= 2);
    assert "A" != "B" && a != b;
    if n == 0 {
      assert GroupAudits(g, n) == [a, b];
      hide Logged, GroupAudits, FirstAudits;
      TwoLogged(log, a, b);
    } else if n == 1 {
      assert GroupAudits(g, n) == FirstAudits(g, n) + [b];
      hide Logged, GroupAudits, FirstAudits;
      FirstAuditsOfSlots(log, g, n);
      RedundancyGroups.LoggedAppend(log, FirstAudits(g, n), [b]);
      OneLogged(PathLog(Some(a), log.all + [a]), b);
    } else {
      assert GroupAudits(g, n) == FirstAudits(g, n);
      hide Logged, GroupAudits, FirstAudits;
      FirstAuditsOfSlots(log, g, n);
    }
  }

  /** The two audits of one more group. */
  lemma NextFirstAudits(all: seq<PathAudit>, groups: seq<Group>, n: nat)
    requires AreFirstAudits(all, groups, n)
    ensures var a := FirstAudit(n, "A", n < |groups| && |groups[n]| >= 1);
            var b := FirstAudit(n, "B", n < |groups| && |groups[n]| >= 2);
            AreFirstAudits(all + [a] + [b], groups, n + 1) && IsLog(PathLog(Some(b), all + [a] + [b]))
  {
  }

  lemma {:induction false} ConfiguredAuditsLogged(groups: seq<Group>, all: seq<Group>)
    requires |groups| <= |all| && groups == all[..|groups|]
    ensures var log := Logged(PathLog(None, []), ConfiguredAudits(groups));
            AreFirstAudits(log.all, all, |groups|) && IsLog(log)
  {
    if groups != [] {
      var n := |groups| - 1;
      var front := groups[..n];
      assert front == all[..n];
      ConfiguredAuditsLogged(front, all);
      RedundancyGroups.LoggedAppend(PathLog(None, []), ConfiguredAudits(front), GroupAudits(n, |groups[n]|));
      assert ConfiguredAudits(groups) == ConfiguredAudits(front) + GroupAudits(n, |groups[n]|);
      var log := Logged(PathLog(None, []), ConfiguredAudits(front));
      LastOfAudits(log, all, n);
      hide Logged, ConfiguredAudits, GroupAudits, AreFirstAudits, FirstAudit, IsLog;
      GroupAuditsLogged(log, n, |groups[n]|);
      NextFirstAudits(log.all, all, n);
    }
  }

  lemma LastOfAudits(log: PathLog, groups: seq<Group>, n: nat)
    requires AreFirstAudits(log.all, groups, n) && IsLog(log)
    ensures log.last.Some? ==> log.last.value.group < n
  {
    if n > 0 {
      assert log.all[2 * (n - 1) + 1] == FirstAudit(n - 1, "B", n - 1 < |groups| && |groups[n - 1]| >= 2);
    }
  }

  function BothUnused(g: nat): seq<PathAudit> {
    [FirstAudit(g, "A", false), FirstAudit(g, "B", false)]
  }

  lemma UnusedNext(first: nat, end: nat)
    ensures UnusedAudits(first, end)
         == if end <= first then [] else UnusedAudits(first, end - 1) + BothUnused(end - 1)
  {
  }

  lemma {:induction false} UnusedAuditsLogged(log: PathLog, groups: seq<Group>, end: nat)
    requires AreFirstAudits(log.all, groups, |groups|) && IsLog(log)
    ensures var last := Logged(log, UnusedAudits(|groups|, end));
            AreFirstAudits(last.all, groups, if end <= |groups| then |groups| else end) && IsLog(last)
  {
    hide *;
    UnusedNext(|groups|, end);
    if end <= |groups| {
      RedundancyGroups.NothingLogged(log);
    } else {
      UnusedAuditsLogged(log, groups, end - 1);
      RedundancyGroups.LoggedAppend(log, UnusedAudits(|groups|, end - 1), BothUnused(end - 1));
      UnusedGroupLogged(Logged(log, UnusedAudits(|groups|, end - 1)), groups, end - 1);
    }
  }

  lemma UnusedGroupLogged(log: PathLog, groups: seq<Group>, n: nat)
    requires AreFirstAudits(log.all, groups, n) && IsLog(log) && n >= |groups|
    ensures var log' := Logged(log, BothUnused(n)); AreFirstAudits(log'.all, groups, n + 1) && IsLog(log')
  {
    var a, b := FirstAudit(n, "A", false), FirstAudit(n, "B", false);
    assert "A" != "B" && a != b;
    LastIsOlder(log, groups, n, a);
    hide Logged, AreFirstAudits, IsLog, FirstAudit;
    TwoLogged(log, a, b);
    NextFirstAudits(log.all, groups, n);
  }

  lemma LastIsOlder(log: PathLog, groups: seq<Group>, n: nat, audit: PathAudit)
    requires AreFirstAudits(log.all, groups, n) && IsLog(log) && audit == FirstAudit(n, "A", false)
    ensures log.last != Some(audit)
  {
    LastOfAudits(log, groups, n);
  }

  /** After the start every slot of the configured groups is lettered, A for the first of its group and
      B for the others; and one audit was sent for each of the paths A and B of each group, in order:
      "disconnected" if the path has a slot, "unused" if it has none. */
  ghost predicate IsStart(s: State, groups: seq<Group>, maxGroups: nat) {
    && AreFirstAudits(s.pathAudits, groups, if maxGroups <= |groups| then |groups| else maxGroups)
    && s.globalAudits == [Disconnected]
    && |s.groups| == |groups|
    && forall g :: 0 <= g < |groups| ==>
         && |s.groups[g]| == |groups[g]|
         && forall i :: 0 <= i < |groups[g]| ==>
              s.groups[g][i] == groups[g][i].(letter := if i == 0 then "A" else "B")
  }

  lemma StartInWords(groups: seq<Group>, maxGroups: nat)
    ensures IsStart(Started(groups, maxGroups), groups, maxGroups)
  {
    assert groups == groups[..|groups|];
    ConfiguredAuditsLogged(groups, groups);
    RedundancyGroups.LoggedAppend(PathLog(None, []), ConfiguredAudits(groups), UnusedAudits(|groups|, maxGroups));
    UnusedAuditsLogged(Logged(PathLog(None, []), ConfiguredAudits(groups)), groups, maxGroups);
    hide Logged, ConfiguredAudits, UnusedAudits, AreFirstAudits;
  }
}
