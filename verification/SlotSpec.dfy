/** Redundancy groups and their connection slots, and what a connection event does to them, on
    values; with the audits that go with the events. */
module SlotSpec {
  import opened Machine

  datatype Peer = Peer(ip: string, port: string)

  /** One slot: configured for a client address, occupied while its port is not empty. */
  datatype Slot = Slot(ip: string, port: string, letter: string, active: bool)

  type Group = seq<Slot>

  datatype EventKind = Opened | Closed | Activated | Deactivated

  datatype GlobalStatus = Connected | Disconnected

  datatype PathStatus = PathActive | PathPassive | PathDisconnected | PathUnused

  /** A per-path audit: status, group index, path letter. */
  datatype PathAudit = PathAudit(status: PathStatus, group: nat, letter: string)

  /** Slots, and the audits sent so far with the last one of each kind. */
  datatype State = State(groups: seq<Group>, lastGlobal: Option<GlobalStatus>, globalAudits: seq<GlobalStatus>,
                         lastPath: Option<PathAudit>, pathAudits: seq<PathAudit>)

  /** Position of the first colon, or `|text|`. */
  function FirstColon(text: string): (i: nat)
    ensures i <= |text| && ':' !in text[..i]
    ensures i < |text| ==> text[i] == ':'
  {
    if text == "" || text[0] == ':' then 0
    else
      var rest := FirstColon(text[1..]);
      assert text[..1 + rest] == [text[0]] + text[1..][..rest];
      1 + rest
  }

  /** The peer behind an address text, split at its first colon; without one both parts are empty. */
  function PeerOf(text: string): Peer {
    var pos := FirstColon(text);
    if pos == |text| then Peer("", "") else Peer(text[..pos], text[pos + 1..])
  }

  predicate HasIp(group: Group, ip: string) {
    exists i :: 0 <= i < |group| && group[i].ip == ip
  }

  /** `GetRedundancyGroup`: the first group with a slot for this address, or `|groups|`. */
  function FindGroup(groups: seq<Group>, ip: string): (g: nat)
    ensures g <= |groups|
    ensures g < |groups| ==> HasIp(groups[g], ip)
    ensures forall h :: 0 <= h < g ==> !HasIp(groups[h], ip)
  {
    if groups == [] then 0
    else if HasIp(groups[0], ip) then 0
    else 1 + FindGroup(groups[1..], ip)
  }

  /** `GetRedGroupCon`: the first slot with this address and port, or `|group|`. */
  function FindSlot(group: Group, ip: string, port: string): (i: nat)
    ensures i <= |group|
    ensures i < |group| ==> group[i].ip == ip && group[i].port == port
    ensures forall j :: 0 <= j < i ==> !(group[j].ip == ip && group[j].port == port)
  {
    if group == [] then 0
    else if group[0].ip == ip && group[0].port == port then 0
    else 1 + FindSlot(group[1..], ip, port)
  }

  /** The slot an event of this peer works on: its own, or else the first free one of its address
      in the first group that knows the address; `None` where the handler returns early. */
  function Locate(groups: seq<Group>, p: Peer): (at: Option<(nat, nat)>)
    ensures at.Some? ==> at.value.0 < |groups| && at.value.1 < |groups[at.value.0]|
  {
    var g := FindGroup(groups, p.ip);
    if g == |groups| then None
    else
      var own := FindSlot(groups[g], p.ip, p.port);
      if own < |groups[g]| then Some((g, own))
      else
        var free := FindSlot(groups[g], p.ip, "");
        if free < |groups[g]| then Some((g, free)) else None
  }

  function WithSlot(groups: seq<Group>, g: nat, i: nat, s: Slot): seq<Group>
    requires g < |groups| && i < |groups[g]|
  {
    groups[g := groups[g][i := s]]
  }

  predicate IsAnyConnectionEstablished(groups: seq<Group>) {
    exists g, i :: 0 <= g < |groups| && 0 <= i < |groups[g]| && groups[g][i].port != ""
  }

  /** An audit equal to the last one of its kind is not sent again. */
  function GlobalAudit(s: State, status: GlobalStatus): State {
    if s.lastGlobal == Some(status) then s
    else s.(lastGlobal := Some(status), globalAudits := s.globalAudits + [status])
  }

  function SendPathAudit(s: State, audit: PathAudit): State {
    if s.lastPath == Some(audit) then s
    else s.(lastPath := Some(audit), pathAudits := s.pathAudits + [audit])
  }

  /** What an event does once its slot is located and holds the peer's port. */
  function Apply(s: State, g: nat, i: nat, kind: EventKind): State
    requires g < |s.groups| && i < |s.groups[g]|
  {
    var slot := s.groups[g][i];
    match kind
    case Opened =>
      SendPathAudit(s, PathAudit(PathPassive, g, slot.letter))
    case Closed =>
      var s := SendPathAudit(s, PathAudit(PathDisconnected, g, slot.letter));
      var s := s.(groups := WithSlot(s.groups, g, i, slot.(port := "")));
      if IsAnyConnectionEstablished(s.groups) then s else GlobalAudit(s, Disconnected)
    case Activated =>
      var s := SendPathAudit(s, PathAudit(PathActive, g, slot.letter));
      var s := GlobalAudit(s, Connected);
      s.(groups := WithSlot(s.groups, g, i, slot.(active := true)))
    case Deactivated =>
      var s := SendPathAudit(s, PathAudit(PathPassive, g, slot.letter));
      s.(groups := WithSlot(s.groups, g, i, slot.(active := false)))
  }

  /** One connection event. An event for which no slot is located changes nothing. */
  function Step(s: State, p: Peer, kind: EventKind): State {
    var at := Locate(s.groups, p);
    if at.None? then s
    else
      var (g, i) := at.value;
      Apply(s.(groups := WithSlot(s.groups, g, i, s.groups[g][i].(port := p.port))), g, i, kind)
  }

  /** Whether an event of this peer removes the outstanding commands of its connection. */
  predicate CleansUp(groups: seq<Group>, p: Peer, kind: EventKind) {
    Locate(groups, p).Some? && (kind == Closed || kind == Deactivated)
  }

  // ---------------------------------------------------------------- configuration and start

  /** A client address that the import took for valid: an IPv4 address is not empty and has no colon. */
  type ClientIp = ip: string | ip != "" && ':' !in ip witness "0.0.0.0"

  /** A connection of a configured group; `Ignored` if it is no object, has no address, or one that is
      not valid. */
  datatype Client = Ignored | Client(ip: ClientIp)

  /** A configured group; `Nameless` ones are skipped. */
  datatype GroupEntry = Nameless | GroupEntry(clients: seq<Client>)

  function SlotsOf(clients: seq<Client>): Group {
    if clients == [] then []
    else
      SlotsOf(clients[..|clients| - 1])
      + match clients[|clients| - 1]
        case Ignored => []
        case Client(ip) => [Slot(ip, "", "", false)]
  }

  /** The groups of a configuration, with their slots free. */
  function GroupsOf(entries: seq<GroupEntry>): seq<Group> {
    if entries == [] then []
    else
      GroupsOf(entries[..|entries| - 1])
      + match entries[|entries| - 1]
        case Nameless => []
        case GroupEntry(clients) => [SlotsOf(clients)]
  }

  /** All configured slots. The library accepts no more open connections than that. */
  function TotalSlots(groups: seq<Group>): nat {
    if groups == [] then 0 else TotalSlots(groups[..|groups| - 1]) + |groups[|groups| - 1]|
  }

  function Letter(i: nat): string {
    if i == 0 then "A" else "B"
  }

  /** The first `n` slots of a group with their letters. */
  function LetteredFront(group: Group, n: nat): (lettered: Group)
    ensures |lettered| == |group|
    ensures forall i :: 0 <= i < |group| ==> lettered[i] == if i < n then group[i].(letter := Letter(i)) else group[i]
  {
    seq(|group|, i requires 0 <= i < |group| => if i < n then group[i].(letter := Letter(i)) else group[i])
  }

  function Lettered(groups: seq<Group>): (lettered: seq<Group>)
    ensures |lettered| == |groups|
    ensures forall g :: 0 <= g < |groups| ==> lettered[g] == LetteredFront(groups[g], |groups[g]|)
  {
    seq(|groups|, g requires 0 <= g < |groups| => LetteredFront(groups[g], |groups[g]|))
  }

  function FirstAudits(g: nat, n: nat): seq<PathAudit> {
    if n == 0 then [] else FirstAudits(g, n - 1) + [PathAudit(PathDisconnected, g, Letter(n - 1))]
  }

  /** The audits at start for a group with `n` slots: one per slot, and paths that are not used. */
  function GroupAudits(g: nat, n: nat): seq<PathAudit> {
    FirstAudits(g, n)
    + if n == 0 then [PathAudit(PathUnused, g, "A"), PathAudit(PathUnused, g, "B")]
      else if n == 1 then [PathAudit(PathUnused, g, "B")] else []
  }

  function ConfiguredAudits(groups: seq<Group>): seq<PathAudit> {
    if groups == [] then []
    else ConfiguredAudits(groups[..|groups| - 1]) + GroupAudits(|groups| - 1, |groups[|groups| - 1]|)
  }

  /** The audits at start for groups that are not configured. */
  function UnusedAudits(first: nat, end: nat): seq<PathAudit> {
    if end <= first then []
    else UnusedAudits(first, end - 1) + [PathAudit(PathUnused, end - 1, "A"), PathAudit(PathUnused, end - 1, "B")]
  }

  /** The last path audit and all that were sent. */
  datatype PathLog = PathLog(last: Option<PathAudit>, all: seq<PathAudit>)

  function Logged(log: PathLog, audits: seq<PathAudit>): PathLog {
    if audits == [] then log
    else
      var before, audit := Logged(log, audits[..|audits| - 1]), audits[|audits| - 1];
      if before.last == Some(audit) then before else PathLog(Some(audit), before.all + [audit])
  }

  /** The slots and audits after the start. */
  function Started(groups: seq<Group>, maxGroups: nat): State {
    var log := Logged(PathLog(None, []), ConfiguredAudits(groups) + UnusedAudits(|groups|, maxGroups));
    State(Lettered(groups), Some(Disconnected), [Disconnected], log.last, log.all)
  }
}
