/** The global audit over every sequence of connection events: it says "connected" only while some
    slot is occupied. With the address texts that events come with. */
module SlotAudits {
  import opened Machine
  import opened SlotSpec
  import opened SlotTracking

  /** The remembered audit is the last of the log, and no audit repeats its predecessor. */
  ghost predicate Remembers<T>(last: Option<T>, log: seq<T>) {
    && (forall i :: 0 <= i < |log| - 1 ==> log[i] != log[i + 1])
    && last == if log == [] then None else Some(log[|log| - 1])
  }

  ghost predicate AuditInv(s: State) {
    && Remembers(s.lastGlobal, s.globalAudits)
    && Remembers(s.lastPath, s.pathAudits)
    && (s.lastGlobal == Some(Connected) ==> IsAnyConnectionEstablished(s.groups))
  }

  lemma GlobalAuditRemembers(s: State, status: GlobalStatus)
    requires Remembers(s.lastGlobal, s.globalAudits)
    ensures var t := GlobalAudit(s, status); Remembers(t.lastGlobal, t.globalAudits)
  {
  }

  lemma PathAuditRemembers(s: State, audit: PathAudit)
    requires Remembers(s.lastPath, s.pathAudits)
    ensures var t := SendPathAudit(s, audit); Remembers(t.lastPath, t.pathAudits)
  {
  }

  lemma StepRemembers(s: State, p: Peer, kind: EventKind)
    requires Remembers(s.lastGlobal, s.globalAudits) && Remembers(s.lastPath, s.pathAudits)
    ensures var t := Step(s, p, kind);
            Remembers(t.lastGlobal, t.globalAudits) && Remembers(t.lastPath, t.pathAudits)
  {
    hide Locate, IsAnyConnectionEstablished, WithSlot, Remembers;
    forall s: State, status | Remembers(s.lastGlobal, s.globalAudits)
      ensures var t := GlobalAudit(s, status); Remembers(t.lastGlobal, t.globalAudits)
    {
      GlobalAuditRemembers(s, status);
    }
    forall s: State, audit | Remembers(s.lastPath, s.pathAudits)
      ensures var t := SendPathAudit(s, audit); Remembers(t.lastPath, t.pathAudits)
    {
      PathAuditRemembers(s, audit);
    }
  }

  lemma EstablishedIffTracked(groups: seq<Group>)
    ensures IsAnyConnectionEstablished(groups) <==> exists p :: IsTracked(groups, p)
  {
    if IsAnyConnectionEstablished(groups) {
      var g, i :| 0 <= g < |groups| && 0 <= i < |groups[g]| && groups[g][i].port != "";
      assert Holds(groups, g, i, Peer(groups[g][i].ip, groups[g][i].port));
      assert IsTracked(groups, Peer(groups[g][i].ip, groups[g][i].port));
    }
    if p :| IsTracked(groups, p) {
      var g: nat, i: nat :| Holds(groups, g, i, p);
      assert groups[g][i].port != "";
    }
  }

  /** The one way to break the audits: a peer without port is activated, finds a slot, and no slot
      holds a port. */
  predicate LeavesFalseAudit(s: State, p: Peer, kind: EventKind) {
    kind == Activated && p.port == "" && Locate(s.groups, p).Some? && !IsAnyConnectionEstablished(s.groups)
  }

  /** A step keeps the audits sound exactly if it is not of that kind. */
  lemma AuditsAreKeptIff(s: State, p: Peer, kind: EventKind)
    requires Inv(s.groups) && AuditInv(s)
    ensures AuditInv(Step(s, p, kind)) <==> !LeavesFalseAudit(s, p, kind)
  {
    hide Locate, IsAnyConnectionEstablished, IsTracked, Inv, WithSlot, Remembers;
    var t := Step(s, p, kind);
    StepRemembers(s, p, kind);
    StepTracks(s, p, kind);
    EstablishedIffTracked(s.groups);
    EstablishedIffTracked(t.groups);
    PortlessIsNotTracked(s.groups, p);
    if Locate(s.groups, p).Some? && kind != Closed && p.port != "" {
      assert IsTracked(t.groups, p);
    }
  }

  lemma PortlessIsNotTracked(groups: seq<Group>, p: Peer)
    ensures p.port == "" ==> !IsTracked(groups, p)
  {
  }

  /** The audits stay sound along a run, after every prefix, exactly if no step is of that kind. */
  lemma {:induction false} AuditsAreSoundIff(s: State, es: seq<Event>)
    requires IsFresh(s.groups) && AuditInv(s)
    ensures (forall n :: 0 <= n <= |es| ==> AuditInv(Run(s, es[..n]))) <==>
              forall n :: 0 <= n < |es| ==> !LeavesFalseAudit(Run(s, es[..n]), es[n].peer, es[n].kind)
  {
    hide AuditInv, LeavesFalseAudit, Step, Inv, IsFresh;
    assert es[..0] == [] && Run(s, []) == s;
    forall n | 0 <= n < |es|
      ensures AuditInv(Run(s, es[..n])) ==>
                (AuditInv(Run(s, es[..n + 1])) <==> !LeavesFalseAudit(Run(s, es[..n]), es[n].peer, es[n].kind))
    {
      SlotsStayUnique(s, es[..n]);
      assert es[..n + 1][..n] == es[..n];
      if AuditInv(Run(s, es[..n])) {
        AuditsAreKeptIff(Run(s, es[..n]), es[n].peer, es[n].kind);
      }
    }
    if forall n :: 0 <= n <= |es| ==> AuditInv(Run(s, es[..n])) {
      forall n | 0 <= n < |es|
        ensures !LeavesFalseAudit(Run(s, es[..n]), es[n].peer, es[n].kind)
      {
        assert AuditInv(Run(s, es[..n])) && AuditInv(Run(s, es[..n + 1]));
      }
    }
    if forall n :: 0 <= n < |es| ==> !LeavesFalseAudit(Run(s, es[..n]), es[n].peer, es[n].kind) {
      var n := 0;
      while n < |es|
        invariant 0 <= n <= |es|
        invariant forall k :: 0 <= k <= n ==> AuditInv(Run(s, es[..k]))
      {
        n := n + 1;
      }
    }
  }

  /** Global audit soundness: over every run, from slots that are all free and the audit
      "disconnected" sent at start, of peers that have a port or an address that is not configured,
      consecutive global audits differ, and when the last one says connected some slot holds a port;
      so once no slot does, the last audit is "disconnected". */
  lemma {:induction false} GlobalAuditIsSound(s: State, es: seq<Event>)
    requires IsFresh(s.groups) && AuditInv(s) && s.lastGlobal == Some(Disconnected)
    requires forall e :: e in es ==> e.peer.port != "" || !IsConfigured(s.groups, e.peer.ip)
    ensures var t := Run(s, es);
            && AuditInv(t)
            && t.lastGlobal.Some?
            && (t.lastGlobal == Some(Connected) ==> IsAnyConnectionEstablished(t.groups))
            && (!IsAnyConnectionEstablished(t.groups) ==> t.lastGlobal == Some(Disconnected))
    decreases |es|
  {
    hide IsAnyConnectionEstablished, Inv, IsFresh, Locate, Step, IsConfigured;
    if es == [] {
    } else {
      var front, e := es[..|es| - 1], es[|es| - 1];
      assert e in es;
      GlobalAuditIsSound(s, front);
      SlotsStayUnique(s, front);
      if e.peer.port == "" {
        NotConfiguredNotLocated(s.groups, Run(s, front).groups, e.peer);
      }
      AuditsAreKeptIff(Run(s, front), e.peer, e.kind);
      AuditIsNeverForgotten(Run(s, front), e.peer, e.kind);
    }
    var last := Run(s, es).lastGlobal;
    assert last == Some(last.value) && (last.value == Connected || last.value == Disconnected);
  }

  // ---------------------------------------------------------------- address texts

  /** A text without colon, or with something after its first one. Texts of peers are of this kind. */
  predicate HasNoTrailingColon(text: string) {
    ':' in text ==> FirstColon(text) < |text| - 1
  }

  lemma {:induction false} FirstColonAfter(t: string, rest: string)
    requires ':' !in t && rest != "" && rest[0] == ':'
    ensures FirstColon(t + rest) == |t|
  {
    if t == "" {
      assert t + rest == rest;
    } else {
      assert (t + rest)[1..] == t[1..] + rest;
      FirstColonAfter(t[1..], rest);
    }
  }

  /** Splitting an address undoes the joining of its parts. */
  lemma SplitOfJoined(ip: string, port: string)
    requires ':' !in ip
    ensures PeerOf(ip + ":" + port) == Peer(ip, port)
  {
    assert ip + ":" + port == ip + (":" + port);
    FirstColonAfter(ip, ":" + port);
  }

  /** What the split can yield: a port is missing only with the address, or with nothing after the
      first colon. */
  lemma PortOfText(text: string)
    ensures PeerOf(text).port == "" <==> ':' !in text || FirstColon(text) == |text| - 1
    ensures ':' !in text ==> PeerOf(text).ip == ""
  {
    var pos := FirstColon(text);
    assert text == text[..pos] + text[pos..];
    assert pos < |text| ==> text[pos] in text;
  }

  /** No slot is configured for the empty address. */
  ghost predicate NoEmptyAddress(groups: seq<Group>) {
    forall g, i :: 0 <= g < |groups| && 0 <= i < |groups[g]| ==> groups[g][i].ip != ""
  }

  /** So for the texts that peers have the audit is sound. */
  lemma TextIsHarmless(groups: seq<Group>, text: string)
    requires NoEmptyAddress(groups) && HasNoTrailingColon(text)
    ensures PeerOf(text).port != "" || !IsConfigured(groups, PeerOf(text).ip)
  {
    PortOfText(text);
    var g := FindGroup(groups, "");
    if g < |groups| {
      assert HasIp(groups[g], "");
    }
  }

  /** The events of these texts. */
  function EventsOf(texts: seq<(string, EventKind)>): (es: seq<Event>)
    ensures |es| == |texts|
    ensures forall i :: 0 <= i < |texts| ==> es[i] == Event(PeerOf(texts[i].0), texts[i].1)
  {
    seq(|texts|, i requires 0 <= i < |texts| => Event(PeerOf(texts[i].0), texts[i].1))
  }

  /** Global audit soundness for the address texts of peers, whatever they are. */
  lemma AuditOfTextsIsSound(s: State, texts: seq<(string, EventKind)>)
    requires IsFresh(s.groups) && NoEmptyAddress(s.groups) && AuditInv(s) && s.lastGlobal == Some(Disconnected)
    requires forall t :: t in texts ==> HasNoTrailingColon(t.0)
    ensures var t := Run(s, EventsOf(texts));
            && AuditInv(t)
            && (t.lastGlobal == Some(Connected) ==> IsAnyConnectionEstablished(t.groups))
            && (!IsAnyConnectionEstablished(t.groups) ==> t.lastGlobal == Some(Disconnected))
  {
    var es := EventsOf(texts);
    forall e | e in es
      ensures e.peer.port != "" || !IsConfigured(s.groups, e.peer.ip)
    {
      var i :| 0 <= i < |es| && es[i] == e;
      assert texts[i] in texts;
      TextIsHarmless(s.groups, texts[i].0);
    }
    GlobalAuditIsSound(s, es);
  }

  lemma AuditIsNeverForgotten(s: State, p: Peer, kind: EventKind)
    ensures s.lastGlobal.Some? ==> Step(s, p, kind).lastGlobal.Some?
  {
    hide Locate, IsAnyConnectionEstablished;
  }

  // ---------------------------------------------------------------- the start

  lemma {:induction false} LoggedIsRemembered(log: PathLog, audits: seq<PathAudit>)
    requires Remembers(log.last, log.all)
    ensures var log' := Logged(log, audits); Remembers(log'.last, log'.all)
  {
    if audits != [] {
      LoggedIsRemembered(log, audits[..|audits| - 1]);
    }
  }

  lemma {:induction false} SlotsOfAreFree(clients: seq<Client>)
    ensures forall s :: s in SlotsOf(clients) ==> s.port == "" && s.ip != ""
  {
    if clients != [] {
      SlotsOfAreFree(clients[..|clients| - 1]);
    }
  }

  lemma {:induction false} GroupsOfAreFree(entries: seq<GroupEntry>)
    ensures forall g, i :: 0 <= g < |GroupsOf(entries)| && 0 <= i < |GroupsOf(entries)[g]| ==>
              GroupsOf(entries)[g][i].port == "" && GroupsOf(entries)[g][i].ip != ""
  {
    hide SlotsOf;
    if entries != [] {
      GroupsOfAreFree(entries[..|entries| - 1]);
      var e := entries[|entries| - 1];
      if e.GroupEntry? {
        SlotsOfAreFree(e.clients);
        assert forall i :: 0 <= i < |SlotsOf(e.clients)| ==> SlotsOf(e.clients)[i] in SlotsOf(e.clients);
      }
    }
  }

  /** The start brings about what the soundness of the audits assumes of the first state. */
  lemma StartIsSound(entries: seq<GroupEntry>, maxGroups: nat)
    ensures var s := Started(GroupsOf(entries), maxGroups);
            && s.groups == Lettered(GroupsOf(entries))
            && IsFresh(s.groups) && NoEmptyAddress(s.groups)
            && AuditInv(s) && s.lastGlobal == Some(Disconnected) && s.globalAudits == [Disconnected]
  {
    hide GroupsOf, ConfiguredAudits, UnusedAudits, Logged;
    var groups := GroupsOf(entries);
    GroupsOfAreFree(entries);
    LoggedIsRemembered(PathLog(None, []), ConfiguredAudits(groups) + UnusedAudits(|groups|, maxGroups));
  }
}
