/** Pending commands and the connections they came on: while the slots suffice every pending command
    belongs to a live connection, and what happens when they do not. */
module LiveConnections {
  import opened Machine
  import opened Protocol
  import opened Points
  import opened ProcessImage
  import opened ServerSpec
  import opened ServerTheorems
  import CommandGate
  import MonitorLoop
  import PendingRuns
  import PendingSpec
  import SlotCap
  import SlotSpec
  import SlotTracking
  import SouthReadings
  import SouthStatus

  /** The connections the library has open, each with its peer, and those that are activated. */
  datatype Env = Env(open: map<Connection, SlotSpec.Peer>, activated: set<Connection>)

  function EnvAfter(es: seq<Event>): Env {
    if es == [] then Env(map[], {})
    else EnvStep(EnvAfter(es[..|es| - 1]), es[|es| - 1])
  }

  function EnvStep(env: Env, e: Event): Env {
    if !e.ConnectionEvent? then env
    else
      match e.kind
      case Opened => env.(open := env.open[e.con := e.peer])
      case Closed => Env(env.open - {e.con}, env.activated - {e.con})
      case Activated => env.(activated := env.activated + {e.con})
      case Deactivated => env.(activated := env.activated - {e.con})
  }

  /** What is asked of the environment at one step: a new connection has a handle and a peer not in
      use, with a port and a configured address; other events are of an open connection and its
      peer; commands come from activated connections. */
  ghost predicate Allowed(groups: seq<SlotSpec.Group>, env: Env, e: Event) {
    match e
    case CommandReceived(con, _, _, _, _) => con in env.activated
    case ConnectionEvent(con, peer, kind) =>
      && peer.port != "" && SlotTracking.IsConfigured(groups, peer.ip)
      && (kind == SlotSpec.Opened ==> con !in env.open && peer !in env.open.Values)
      && (kind != SlotSpec.Opened ==> con in env.open && env.open[con] == peer)
    case _ => true
  }

  ghost predicate AllAllowed(groups: seq<SlotSpec.Group>, es: seq<Event>) {
    es == [] ||
    (AllAllowed(groups, es[..|es| - 1]) && Allowed(groups, EnvAfter(es[..|es| - 1]), es[|es| - 1]))
  }

  /** Open connections have different peers, and only open ones are activated; the peers are those
      of the connection events. */
  lemma {:induction false} EnvIsConsistent(groups: seq<SlotSpec.Group>, es: seq<Event>)
    requires AllAllowed(groups, es)
    ensures var env := EnvAfter(es);
            && env.activated <= env.open.Keys
            && (forall a, b :: a in env.open && b in env.open && env.open[a] == env.open[b] ==> a == b)
            && env.open.Values == SlotTracking.OpenAfter(SlotEvents(es))
            && SlotTracking.IsOrderly(SlotEvents(es))
    ensures forall con :: con in EnvAfter(es).open ==>
              EnvAfter(es).open[con].port != "" && SlotTracking.IsConfigured(groups, EnvAfter(es).open[con].ip)
  {
    hide SlotTracking.IsConfigured;
    if es != [] {
      var front, e := es[..|es| - 1], es[|es| - 1];
      EnvIsConsistent(groups, front);
      var before := SlotEvents(front);
      if e.ConnectionEvent? {
        var se := SlotTracking.Event(e.peer, e.kind);
        assert (before + [se])[..|before|] == before;
        ValuesFollow(EnvAfter(front), e.con, e.peer);
      } else {
        assert SlotEvents(es) == before;
      }
    }
  }

  lemma ValuesFollow(env: Env, con: Connection, peer: SlotSpec.Peer)
    requires forall a, b :: a in env.open && b in env.open && env.open[a] == env.open[b] ==> a == b
    ensures con !in env.open ==> env.open[con := peer].Values == env.open.Values + {peer}
    ensures con in env.open && env.open[con] == peer ==>
              (env.open - {con}).Values == env.open.Values - {peer} && peer in env.open.Values
  {
    if con !in env.open {
      var open' := env.open[con := peer];
      forall p | p in env.open.Values + {peer}
        ensures p in open'.Values
      {
        if p == peer {
          assert open'[con] == p;
        } else {
          var a :| a in env.open && env.open[a] == p;
          assert open'[a] == p;
        }
      }
    } else if env.open[con] == peer {
      var open' := env.open - {con};
      forall p | p in env.open.Values - {peer}
        ensures p in open'.Values
      {
        var a :| a in env.open && env.open[a] == p;
        assert open'[a] == p;
      }
    }
  }

  /** Every pending command belongs to an activated connection. */
  ghost predicate OnlyLive(pending: seq<PendingSpec.Command>, env: Env) {
    forall c :: c in pending ==> c.con in env.activated
  }

  lemma PendingConnectionsOf(T: int, s: PendingSpec.State, e: PendingSpec.Event)
    ensures forall c :: c in PendingSpec.Step(T, s, e).pending ==>
              || (exists d :: d in s.pending && d.con == c.con && (e.Lose? ==> c.con != e.con))
              || (e.Arrive? && c.con == e.con)
  {
    var t := PendingSpec.Step(T, s, e);
    if e.Confirm? || e.Terminate? {
      var i := PendingSpec.FirstMatch(s.pending, e.key);
      if i < |s.pending| {
        assert s.pending[i] in s.pending;
      }
    } else if !e.Arrive? {
      PendingRuns.KeptMembers(s.pending, e);
    }
  }

  /** Pending table versus live connections: if peers have configured addresses and as many slots as
      open connections at every time, handles and peers are not shared, and commands come from
      activated connections, then in every reachable state each pending command belongs to a
      connection that is open and activated. */
  lemma {:induction false} PendingBelongsToLive(cfg: Config, s: State, es: seq<Event>)
    requires IsInitial(s) && AllAllowed(s.slots.groups, es)
    requires SlotTracking.WithinCapacity(s.slots.groups, SlotEvents(es))
    ensures OnlyLive(Run(cfg, s, es).pending.pending, EnvAfter(es))
    ensures EnvAfter(es).activated <= EnvAfter(es).open.Keys
  {
    EnvIsConsistent(s.slots.groups, es);
    if es != [] {
      hide Step, IsInitial, Allowed, EnvStep, OnlyLive, SlotEvents, SlotTracking.WithinCapacity, SlotSpec.Locate;
      var front, e := es[..|es| - 1], es[|es| - 1];
      EventsWithinCapacity(s.slots.groups, front, e);
      assert es == front + [e];
      PendingBelongsToLive(cfg, s, front);
      var t := Run(cfg, s, front);
      StepOfPending(cfg, t, e);
      ConnectionIsTracked(cfg, s, front, e);
      OneStepLive(cfg, t, s.slots.groups, EnvAfter(front), e);
    }
  }

  /** Where the cap on connections is enough: with all slots of one address in one group nothing more
      is asked of the number of connections than what the library sees to. */
  lemma PendingBelongsToLiveUnderCap(cfg: Config, s: State, es: seq<Event>)
    requires IsInitial(s) && AllAllowed(s.slots.groups, es)
    requires SlotCap.AllTogether(s.slots.groups) && SlotCap.Capped(s.slots.groups, SlotEvents(es))
    ensures OnlyLive(Run(cfg, s, es).pending.pending, EnvAfter(es))
  {
    hide IsInitial, Run;
    EnvIsConsistent(s.slots.groups, es);
    SlotCap.CapSufficesIff(s.slots.groups);
    PendingBelongsToLive(cfg, s, es);
  }

  lemma EventsWithinCapacity(groups: seq<SlotSpec.Group>, front: seq<Event>, e: Event)
    requires SlotTracking.WithinCapacity(groups, SlotEvents(front + [e]))
    ensures SlotTracking.WithinCapacity(groups, SlotEvents(front))
  {
    hide SlotTracking.IsConfigured;
    assert (front + [e])[..|front|] == front;
    if e.ConnectionEvent? {
      var before := SlotEvents(front);
      assert (before + [SlotTracking.Event(e.peer, e.kind)])[..|before|] == before;
    } else {
      assert SlotEvents(front + [e]) == SlotEvents(front);
    }
  }

  /** The event of an open connection finds its slot. */
  lemma ConnectionIsTracked(cfg: Config, s: State, front: seq<Event>, e: Event)
    requires IsInitial(s) && AllAllowed(s.slots.groups, front) && Allowed(s.slots.groups, EnvAfter(front), e)
    requires SlotTracking.WithinCapacity(s.slots.groups, SlotEvents(front))
    ensures e.ConnectionEvent? && e.kind != SlotSpec.Opened ==>
              SlotSpec.Locate(Run(cfg, s, front).slots.groups, e.peer).Some?
  {
    hide SlotTracking.IsConfigured, SlotTracking.IsFresh, SlotSpec.Locate, SlotTracking.IsTracked, SlotTracking.Inv;
    if e.ConnectionEvent? && e.kind != SlotSpec.Opened {
      EnvIsConsistent(s.slots.groups, front);
      SlotsAreARun(cfg, s, front);
      SlotTracking.SlotsTrackPeers(s.slots, SlotEvents(front));
      SlotTracking.SlotsStayUnique(s.slots, SlotEvents(front));
      assert e.peer in EnvAfter(front).open.Values by {
        assert EnvAfter(front).open[e.con] == e.peer;
      }
      SlotTracking.LocatedIff(Run(cfg, s, front).slots.groups, e.peer);
    }
  }

  lemma OneStepLive(cfg: Config, s: State, groups: seq<SlotSpec.Group>, env: Env, e: Event)
    requires OnlyLive(s.pending.pending, env) && Allowed(groups, env, e)
    requires e.ConnectionEvent? && (e.kind == SlotSpec.Closed || e.kind == SlotSpec.Deactivated) ==>
               SlotSpec.Locate(s.slots.groups, e.peer).Some?
    ensures OnlyLive(PendingStep(cfg, s, e).pending, EnvStep(env, e))
  {
    hide PendingSpec.Step, VerdictOn, SlotSpec.Locate, SlotTracking.IsConfigured;
    var pe := PendingEventOf(cfg, s, e);
    if pe.Some? {
      PendingConnectionsOf(cfg.gate.execTimeout, s.pending, pe.value);
    }
  }

  /** So no confirmation or termination goes to a dead connection: every frame a further step sends
      goes to a connection that is open and activated. */
  lemma FramesGoToLive(cfg: Config, s: State, es: seq<Event>, e: Event)
    requires IsInitial(s) && AllAllowed(s.slots.groups, es)
    requires SlotTracking.WithinCapacity(s.slots.groups, SlotEvents(es))
    ensures var sent, sent' := Run(cfg, s, es).pending.sent, Run(cfg, s, es + [e]).pending.sent;
            && sent <= sent'
            && forall i :: |sent| <= i < |sent'| ==>
                 sent'[i].con in EnvAfter(es).activated && sent'[i].con in EnvAfter(es).open
  {
    hide Step, PendingEventOf;
    assert (es + [e])[..|es|] == es;
    PendingBelongsToLive(cfg, s, es);
    var t := Run(cfg, s, es);
    StepOfPending(cfg, t, e);
    var pe := PendingEventOf(cfg, t, e);
    if pe.Some? && (pe.value.Confirm? || pe.value.Terminate?) {
      var i := PendingSpec.FirstMatch(t.pending.pending, pe.value.key);
      if i < |t.pending.pending| {
        assert t.pending.pending[i] in t.pending.pending;
      }
    }
  }

  /** When the cleanup is missed. The end of a connection or of its activation takes its commands out
      of the table, in any state, if and only if a slot is located for its peer or it has none. */
  lemma CleanupIff(cfg: Config, s: State, con: Connection, peer: SlotSpec.Peer, kind: SlotSpec.EventKind)
    requires kind == SlotSpec.Closed || kind == SlotSpec.Deactivated
    ensures var t := Step(cfg, s, ConnectionEvent(con, peer, kind));
            (forall c :: c in t.pending.pending ==> c.con != con) <==>
              SlotSpec.Locate(s.slots.groups, peer).Some? || (forall c :: c in s.pending.pending ==> c.con != con)
  {
    hide SlotSpec.Locate, SlotSpec.Step;
    PendingRuns.KeptMembers(s.pending.pending, PendingSpec.Lose(con));
  }

  /** The end of a connection, or of its activation, that finds no slot while a command of it is
      pending. */
  ghost predicate MissesCleanup(s: State, e: Event) {
    && e.ConnectionEvent? && (e.kind == SlotSpec.Closed || e.kind == SlotSpec.Deactivated)
    && SlotSpec.Locate(s.slots.groups, e.peer).None?
    && exists c :: c in s.pending.pending && c.con == e.con
  }

  /** A step keeps pending commands to live connections exactly if it does not miss the cleanup. */
  lemma LiveIsKeptIff(cfg: Config, s: State, groups: seq<SlotSpec.Group>, env: Env, e: Event)
    requires OnlyLive(s.pending.pending, env) && Allowed(groups, env, e)
    ensures OnlyLive(Step(cfg, s, e).pending.pending, EnvStep(env, e)) <==> !MissesCleanup(s, e)
  {
    StepOfPending(cfg, s, e);
    if e.ConnectionEvent? && (e.kind == SlotSpec.Closed || e.kind == SlotSpec.Deactivated) {
      CleanupIff(cfg, s, e.con, e.peer, e.kind);
      hide Step, SlotSpec.Locate;
      var pe := PendingEventOf(cfg, s, e);
      if pe.Some? {
        PendingConnectionsOf(cfg.gate.execTimeout, s.pending, pe.value);
      }
      assert e == ConnectionEvent(e.con, e.peer, e.kind);
    } else {
      hide Step, SlotSpec.Locate;
      OneStepLive(cfg, s, groups, env, e);
    }
  }

  /** Whether pending commands belong to live connections after the first `n` events. */
  ghost predicate IsLiveAt(cfg: Config, s: State, es: seq<Event>, n: nat)
    requires n <= |es|
  {
    OnlyLive(Run(cfg, s, es[..n]).pending.pending, EnvAfter(es[..n]))
  }

  ghost predicate MissesAt(cfg: Config, s: State, es: seq<Event>, n: nat)
    requires n < |es|
  {
    MissesCleanup(Run(cfg, s, es[..n]), es[n])
  }

  lemma LiveAtNextIff(cfg: Config, s: State, es: seq<Event>, n: nat)
    requires AllAllowed(s.slots.groups, es) && n < |es| && IsLiveAt(cfg, s, es, n)
    ensures IsLiveAt(cfg, s, es, n + 1) <==> !MissesAt(cfg, s, es, n)
  {
    hide Step, Allowed, EnvStep, MissesCleanup, OnlyLive;
    assert es[..n + 1][..n] == es[..n];
    AllowedAt(s.slots.groups, es, n);
    LiveIsKeptIff(cfg, Run(cfg, s, es[..n]), s.slots.groups, EnvAfter(es[..n]), es[n]);
  }

  /** Pending commands belong to live connections after every prefix of a run exactly if no step of it
      misses the cleanup. */
  lemma LiveThroughoutIff(cfg: Config, s: State, es: seq<Event>)
    requires IsInitial(s) && AllAllowed(s.slots.groups, es)
    ensures (forall n :: 0 <= n <= |es| ==> IsLiveAt(cfg, s, es, n)) <==>
              forall n :: 0 <= n < |es| ==> !MissesAt(cfg, s, es, n)
  {
    hide IsLiveAt, MissesAt, IsInitial, AllAllowed;
    LiveAtFirst(cfg, s, es);
    if forall n :: 0 <= n <= |es| ==> IsLiveAt(cfg, s, es, n) {
      forall n | 0 <= n < |es|
        ensures !MissesAt(cfg, s, es, n)
      {
        assert IsLiveAt(cfg, s, es, n) && IsLiveAt(cfg, s, es, n + 1);
        LiveAtNextIff(cfg, s, es, n);
      }
    }
    if forall n :: 0 <= n < |es| ==> !MissesAt(cfg, s, es, n) {
      var n := 0;
      while n < |es|
        invariant 0 <= n <= |es|
        invariant forall k :: 0 <= k <= n ==> IsLiveAt(cfg, s, es, k)
      {
        LiveAtNextIff(cfg, s, es, n);
        n := n + 1;
      }
    }
  }

  lemma LiveAtFirst(cfg: Config, s: State, es: seq<Event>)
    requires IsInitial(s)
    ensures IsLiveAt(cfg, s, es, 0)
  {
    assert es[..0] == [];
  }

  lemma {:induction false} AllowedAt(groups: seq<SlotSpec.Group>, es: seq<Event>, n: nat)
    requires AllAllowed(groups, es) && n < |es|
    ensures Allowed(groups, EnvAfter(es[..n]), es[n])
    decreases |es|
  {
    hide Allowed, EnvAfter;
    if n < |es| - 1 {
      AllowedAt(groups, es[..|es| - 1], n);
      assert es[..|es| - 1][..n] == es[..n];
    }
  }

  // ---------------------------------------------------------------- a connection that has no slot

  /** The feedback that confirms a command. */
  ghost predicate Confirms(e: Event, key: PendingSpec.Key) {
    ObjectOf(e).Some? && IsFeedback(ObjectOf(e).value) && FeedbackEvent(ObjectOf(e).value).Confirm?
    && FeedbackEvent(ObjectOf(e).value).key == key
  }

  /** What follows when no slot is located for an open connection: it is activated, sends a command
      that is forwarded, closes, and the confirmation still goes to it. */
  lemma DeadConnectionIsAnswered(cfg: Config, s: State, con: Connection, peer: SlotSpec.Peer, command: Event,
                                 feedback: Event)
    requires SlotSpec.Locate(s.slots.groups, peer).None?
    requires command.CommandReceived? && command.con == con && IsSupportedCommandType(command.command.typeId)
    requires VerdictOn(cfg, s, command.command, command.now) == CommandGate.Forward
    requires forall c :: c in s.pending.pending ==> c.key != KeyOf(command.command)
    requires Confirms(feedback, KeyOf(command.command))
    ensures var es := [ConnectionEvent(con, peer, SlotSpec.Activated), command,
                       ConnectionEvent(con, peer, SlotSpec.Closed), feedback];
            exists f :: Run(cfg, s, es).pending.sent == s.pending.sent + [f] && f.con == con
                        && f.kind == PendingSpec.ActCon && f.key == KeyOf(command.command)
  {
    var activated := ConnectionEvent(con, peer, SlotSpec.Activated);
    var closed := ConnectionEvent(con, peer, SlotSpec.Closed);
    FourSteps(cfg, s, activated, command, closed, feedback);
    MissedEvent(cfg, s, con, peer, SlotSpec.Activated);
    var t := Step(cfg, s, command);
    var c := ForwardedIsPending(cfg, s, command);
    MissedEvent(cfg, t, con, peer, SlotSpec.Closed);
    hide Step, VerdictOn, SlotSpec.Locate, Run;
    var u := Step(cfg, t, feedback);
    ConfirmsTheOnly(cfg, t, feedback, s.pending.pending, c);
    var negative := FeedbackEvent(ObjectOf(feedback).value).negative;
    var f := PendingSpec.Frame(c.con, c.id, c.key, PendingSpec.ActCon, negative);
    assert u.pending.sent == s.pending.sent + [f];
  }

  lemma ThreeSteps(cfg: Config, s: State, a: Event, b: Event, c: Event)
    ensures Run(cfg, s, [a, b, c]) == Step(cfg, Step(cfg, Step(cfg, s, a), b), c)
  {
    hide Step, Run;
    RunNext(cfg, s, [], a);
    RunNext(cfg, s, [a], b);
    RunNext(cfg, s, [a, b], c);
    assert [] + [a] == [a] && [a] + [b] == [a, b] && [a, b] + [c] == [a, b, c];
  }

  lemma FourSteps(cfg: Config, s: State, a: Event, b: Event, c: Event, d: Event)
    ensures Run(cfg, s, [a, b, c, d]) == Step(cfg, Step(cfg, Step(cfg, Step(cfg, s, a), b), c), d)
  {
    hide Step, Run;
    ThreeSteps(cfg, s, a, b, c);
    RunNext(cfg, s, [a, b, c], d);
    assert [a, b, c] + [d] == [a, b, c, d];
  }

  /** An event without slot changes nothing. */
  lemma MissedEvent(cfg: Config, s: State, con: Connection, peer: SlotSpec.Peer, kind: SlotSpec.EventKind)
    requires SlotSpec.Locate(s.slots.groups, peer).None?
    ensures Step(cfg, s, ConnectionEvent(con, peer, kind)) == s
  {
    hide SlotSpec.Locate;
  }

  lemma ForwardedIsPending(cfg: Config, s: State, e: Event) returns (c: PendingSpec.Command)
    requires e.CommandReceived? && IsSupportedCommandType(e.command.typeId)
    requires VerdictOn(cfg, s, e.command, e.now) == CommandGate.Forward
    ensures var t := Step(cfg, s, e);
            && t.pending.pending == s.pending.pending + [c] && t.pending.sent == s.pending.sent && t.slots == s.slots
            && c.con == e.con && c.key == KeyOf(e.command)
  {
    hide VerdictOn;
    c := Step(cfg, s, e).pending.pending[|s.pending.pending|];
    assert Step(cfg, s, e).pending.pending == s.pending.pending + [c];
  }

  lemma ConfirmsTheOnly(cfg: Config, s: State, e: Event, before: seq<PendingSpec.Command>, c: PendingSpec.Command)
    requires s.pending.pending == before + [c] && forall d :: d in before ==> d.key != c.key
    requires Confirms(e, c.key)
    ensures Step(cfg, s, e).pending.sent == s.pending.sent + [PendingSpec.Frame(c.con, c.id, c.key, PendingSpec.ActCon,
              FeedbackEvent(ObjectOf(e).value).negative)]
  {
    StepOfPending(cfg, s, e);
    hide Step, ObjectOf, FeedbackEvent, IsFeedback;
    var i := PendingSpec.FirstMatch(s.pending.pending, c.key);
    assert s.pending.pending[|before|] == c;
    assert forall k :: 0 <= k < |before| ==> s.pending.pending[k] == before[k] && before[k] in before;
    assert i == |before|;
  }

  /** A server with one command point, south listed as one asset, and two slots for two addresses. */
  function SmallServer(): State {
    State(PendingSpec.EMPTY,
          map[1 := map[2 := Some(Point(1, 2, SP, true, 1, InitialContent(SP), None))]],
          SlotSpec.State(SlotCap.TWO_ADDRESSES, Some(SlotSpec.Disconnected), [SlotSpec.Disconnected], None, []),
          [SouthStatus.Monitor("south", SouthStatus.NotConnected, SouthStatus.GiIdle)],
          MonitorLoop.INITIAL, [], [], [])
  }

  /** The run of the case: south starts, two connections of the first address open, the second is
      activated, sends a single command and closes, and the confirmation of the command arrives. */
  function SmallRun(now: nat): seq<Event> {
    var io := CommandGate.CommandObject(2, false, None);
    var command := CommandGate.Command(C_SC_NA_1, COT_ACTIVATION, 1, 0, Some(io));
    [SouthDatapoint("south", SouthEventPoint([SouthStatus.ConnxStatus("started")]), true, now),
     ConnectionEvent(1, SlotCap.FIRST, SlotSpec.Opened),
     ConnectionEvent(2, SlotCap.SECOND, SlotSpec.Opened),
     ConnectionEvent(2, SlotCap.SECOND, SlotSpec.Activated),
     CommandReceived(2, command, now, now, 1),
     ConnectionEvent(2, SlotCap.SECOND, SlotSpec.Closed),
     SouthDatapoint("south", DataObjectPoint(SmallFeedback()), true, now)]
  }

  function SmallFeedback(): seq<SouthReadings.Attribute> {
    [SouthReadings.DoCa(1), SouthReadings.DoIoa(2), SouthReadings.DoCot(COT_ACTIVATION_CON),
     SouthReadings.DoType(C_SC_NA_1)]
  }

  lemma FeedbackIsCollected()
    ensures var obj := SouthReadings.Collected(SmallFeedback());
            obj.ca == 1 && obj.ioa == 2 && obj.cot == COT_ACTIVATION_CON && obj.typeId == C_SC_NA_1
  {
    var attributes := SmallFeedback();
    assert attributes[0] == SouthReadings.DoCa(1) && attributes[1] == SouthReadings.DoIoa(2);
    assert attributes[2] == SouthReadings.DoCot(COT_ACTIVATION_CON) && attributes[3] == SouthReadings.DoType(C_SC_NA_1);
  }

  lemma SmallServerIsInitial()
    ensures IsInitial(SmallServer())
  {
    var s := SmallServer();
    forall ca, ioa | PointAt(s.image, ca, ioa).Some?
      ensures ca == 1 && ioa == 2
    {
    }
  }

  /** The state before the missed connection is activated. */
  lemma BeforeActivation(cfg: Config, now: nat)
    ensures var s, t := SmallServer(), Run(cfg, SmallServer(), SmallRun(now)[..3]);
            && SlotSpec.Locate(t.slots.groups, SlotCap.SECOND).None?
            && t.image == s.image && t.pending == s.pending && SouthStatus.IsSouthConnected(t.south)
  {
    var s, es := SmallServer(), SmallRun(now);
    var a, b, c := es[0], es[1], es[2];
    assert es[..3] == [a, b, c];
    ThreeSteps(cfg, s, a, b, c);
    SouthStarts(cfg, s, now);
    OpeningsMissSecond(s.slots);
    hide Step, Run, SlotSpec.Step, SlotSpec.Locate;
    var t := Step(cfg, s, a);
    OpeningChangesSlots(cfg, t, 1, SlotCap.FIRST);
    OpeningChangesSlots(cfg, Step(cfg, t, b), 2, SlotCap.SECOND);
  }

  lemma OpeningsMissSecond(slots: SlotSpec.State)
    requires slots.groups == SlotCap.TWO_ADDRESSES
    ensures var t := SlotSpec.Step(slots, SlotCap.FIRST, SlotSpec.Opened);
            var t := SlotSpec.Step(t, SlotCap.SECOND, SlotSpec.Opened);
            SlotSpec.Locate(t.groups, SlotCap.SECOND).None?
  {
    hide SlotSpec.Step, SlotSpec.Locate;
    SlotCap.SecondConnectionIsMissed(slots);
    var ses := [SlotTracking.Event(SlotCap.FIRST, SlotSpec.Opened),
                SlotTracking.Event(SlotCap.SECOND, SlotSpec.Opened)];
    assert ses[..1][..0] == [] && SlotTracking.Run(slots, []) == slots;
  }

  lemma OpeningChangesSlots(cfg: Config, s: State, con: Connection, peer: SlotSpec.Peer)
    ensures var t := Step(cfg, s, ConnectionEvent(con, peer, SlotSpec.Opened));
            t == s.(slots := SlotSpec.Step(s.slots, peer, SlotSpec.Opened))
  {
    hide SlotSpec.Step;
  }

  lemma SouthStarts(cfg: Config, s: State, now: nat)
    requires s == SmallServer()
    ensures var status := [SouthStatus.ConnxStatus("started")];
            var t := Step(cfg, s, SouthDatapoint("south", SouthEventPoint(status), true, now));
            && t == s.(south := t.south) && SouthStatus.IsSouthConnected(t.south)
  {
    var status := [SouthStatus.ConnxStatus("started")];
    assert status[..0] == [];
    assert s.south[0].asset == "south";
    assert SouthStatus.FirstOf(s.south, "south") == 0;
    var m := SouthStatus.UpdatedMonitor(s.south[0], status);
    assert SouthStatus.UpdatedMonitor(s.south[0], []) == s.south[0];
    assert m.connx == SouthStatus.Started;
    assert SouthStatus.Step(s.south, SouthStatus.SouthEvent("south", status))[0] == m;
  }

  /** The cleanup is missed in a run that starts like every server, within the cap on connections, with
      a command gate that lets untimed commands of originator 0 through: the confirmation goes to a
      connection that is no longer open. */
  lemma ConfirmationGoesToTheDead(cfg: Config, now: nat)
    requires CommandGate.AllowCmdWithoutTime(cfg.gate) && CommandGate.IsOriginatorAllowed(cfg.gate, 0)
    ensures var s, es := SmallServer(), SmallRun(now);
            && IsInitial(s) && AllAllowed(s.slots.groups, es) && SlotCap.Capped(s.slots.groups, SlotEvents(es))
            && exists f :: Run(cfg, s, es).pending.sent == [f] && f.con == 2 && f.kind == PendingSpec.ActCon
                           && f.con !in EnvAfter(es).open
  {
    var s, es := SmallServer(), SmallRun(now);
    SmallServerIsInitial();
    BeforeActivation(cfg, now);
    SmallRunMayHappen(now);
    hide Run, IsInitial, AllAllowed, EnvAfter, SlotEvents, SlotCap.Capped, SlotSpec.Locate, VerdictOn,
         CommandGate.AllowCmdWithoutTime, CommandGate.IsOriginatorAllowed, SouthStatus.IsSouthConnected;
    var t := Run(cfg, s, es[..3]);
    CommandPasses(cfg, t, es[4].command, now);
    FeedbackIsCollected();
    assert Confirms(es[6], KeyOf(es[4].command)) by {
      hide SouthReadings.Collected;
    }
    DeadConnectionIsAnswered(cfg, t, 2, SlotCap.SECOND, es[4], es[6]);
    assert es[3..] == [es[3], es[4], es[5], es[6]] && es == es[..3] + es[3..];
    RunAppend(cfg, s, es[..3], es[3..]);
  }

  lemma CommandPasses(cfg: Config, t: State, c: CommandGate.Command, now: nat)
    requires CommandGate.AllowCmdWithoutTime(cfg.gate) && CommandGate.IsOriginatorAllowed(cfg.gate, 0)
    requires t.image == SmallServer().image && SouthStatus.IsSouthConnected(t.south)
    requires c == CommandGate.Command(C_SC_NA_1, COT_ACTIVATION, 1, 0, Some(CommandGate.CommandObject(2, false, None)))
    ensures VerdictOn(cfg, t, c, now) == CommandGate.Forward
  {
    hide SouthStatus.IsSouthConnected;
    var row := TouchRow(t.image, 1)[1];
    assert 2 in row && row[2].Some?;
  }

  /** What the library may deliver: handles and peers are of open connections, commands come from
      activated ones, and no more are open than there are slots. */
  ghost predicate MayHappen(es: seq<Event>, env: Env) {
    && AllAllowed(SlotCap.TWO_ADDRESSES, es) && EnvAfter(es) == env
    && SlotCap.Capped(SlotCap.TWO_ADDRESSES, SlotEvents(es))
  }

  lemma NextMayHappen(es: seq<Event>, env: Env, e: Event, env': Env)
    requires MayHappen(es, env) && Allowed(SlotCap.TWO_ADDRESSES, env, e) && env' == EnvStep(env, e)
    requires env'.open.Values <= {SlotCap.FIRST, SlotCap.SECOND}
    ensures MayHappen(es + [e], env')
  {
    hide Allowed, EnvStep;
    assert (es + [e])[..|es|] == es;
    EnvIsConsistent(SlotCap.TWO_ADDRESSES, es + [e]);
    SlotCap.TwoSlots();
    SlotCap.SubsetIsSmaller(env'.open.Values, {SlotCap.FIRST, SlotCap.SECOND});
    var before := SlotEvents(es);
    if e.ConnectionEvent? {
      var se := SlotTracking.Event(e.peer, e.kind);
      assert SlotEvents(es + [e]) == before + [se] && (before + [se])[..|before|] == before;
    } else {
      assert SlotEvents(es + [e]) == before;
    }
  }

  const NONE_OPEN := Env(map[], {})
  const ONE_OPEN := Env(map[1 := SlotCap.FIRST], {})
  const BOTH_OPEN := Env(map[1 := SlotCap.FIRST, 2 := SlotCap.SECOND], {})
  const SECOND_ACTIVE := Env(map[1 := SlotCap.FIRST, 2 := SlotCap.SECOND], {2})

  lemma PeersMayConnect()
    ensures SlotCap.FIRST.port != "" && SlotCap.SECOND.port != "" && SlotCap.FIRST != SlotCap.SECOND
    ensures SlotTracking.IsConfigured(SlotCap.TWO_ADDRESSES, SlotCap.FIRST.ip)
    ensures SlotCap.FIRST.ip == SlotCap.SECOND.ip
    ensures MayHappen([], NONE_OPEN)
  {
    SlotCap.TwoSlots();
    assert SlotCap.FIRST.port != SlotCap.SECOND.port;
    assert SlotEvents([]) == [] && SlotTracking.OpenAfter([]) == {};
  }

  lemma BothMayOpen(now: nat)
    ensures MayHappen(SmallRun(now)[..3], BOTH_OPEN)
  {
    PeersMayConnect();
    hide MayHappen, SlotTracking.IsConfigured;
    var es := SmallRun(now);
    NextMayHappen([], NONE_OPEN, es[0], NONE_OPEN);
    assert [] + [es[0]] == es[..1];
    NextMayHappen(es[..1], NONE_OPEN, es[1], ONE_OPEN);
    assert es[..1] + [es[1]] == es[..2];
    NextMayHappen(es[..2], ONE_OPEN, es[2], BOTH_OPEN);
    assert es[..2] + [es[2]] == es[..3];
  }

  lemma SecondMayBeActive(now: nat)
    ensures MayHappen(SmallRun(now)[..5], SECOND_ACTIVE)
  {
    BothMayOpen(now);
    PeersMayConnect();
    hide MayHappen, SlotTracking.IsConfigured;
    var es := SmallRun(now);
    NextMayHappen(es[..3], BOTH_OPEN, es[3], SECOND_ACTIVE);
    assert es[..3] + [es[3]] == es[..4];
    NextMayHappen(es[..4], SECOND_ACTIVE, es[4], SECOND_ACTIVE);
    assert es[..4] + [es[4]] == es[..5];
  }

  lemma SmallRunMayHappen(now: nat)
    ensures MayHappen(SmallRun(now), ONE_OPEN)
  {
    SecondMayBeActive(now);
    PeersMayConnect();
    hide MayHappen, SlotTracking.IsConfigured;
    var es := SmallRun(now);
    NextMayHappen(es[..5], SECOND_ACTIVE, es[5], ONE_OPEN);
    assert es[..5] + [es[5]] == es[..6];
    NextMayHappen(es[..6], ONE_OPEN, es[6], ONE_OPEN);
    assert es[..6] + [es[6]] == es;
  }
}
