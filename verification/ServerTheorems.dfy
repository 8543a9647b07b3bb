/** Theorems about the whole server, over every run of its steps. Its parts run as the part machines
    do, so what is proved of those holds here; the rest relates several parts. */
module ServerTheorems {
  import opened Machine
  import opened Protocol
  import opened Points
  import opened ProcessImage
  import opened ServerSpec
  import CommandGate
  import Interrogation
  import InterrogationTheorems
  import MonitorLoop
  import PendingQueues
  import PendingRuns
  import PendingSpec
  import SlotAudits
  import SlotSpec
  import SlotTracking
  import SouthStatus
  import Terms

  // ---------------------------------------------------------------- the parts run on their own

  /** The steps of the command table in a run of the server. */
  function PendingEvents(cfg: Config, s: State, es: seq<Event>): seq<PendingSpec.Event> {
    if es == [] then []
    else
      var front, e := es[..|es| - 1], es[|es| - 1];
      var pe := PendingEventOf(cfg, Run(cfg, s, front), e);
      PendingEvents(cfg, s, front) + if pe.Some? then [pe.value] else []
  }

  lemma {:induction false} PendingIsARun(cfg: Config, s: State, es: seq<Event>)
    requires s.pending == PendingSpec.EMPTY
    ensures Run(cfg, s, es).pending
         == PendingSpec.Run(cfg.gate.execTimeout, PendingSpec.EMPTY, PendingEvents(cfg, s, es))
  {
    hide PendingEventOf, PendingSpec.Step;
    if es != [] {
      var front, e := es[..|es| - 1], es[|es| - 1];
      PendingIsARun(cfg, s, front);
      StepOfPending(cfg, Run(cfg, s, front), e);
      var pe := PendingEventOf(cfg, Run(cfg, s, front), e);
      if pe.Some? {
        var before := PendingEvents(cfg, s, front);
        assert (before + [pe.value])[..|before|] == before;
      } else {
        assert PendingEvents(cfg, s, es) == PendingEvents(cfg, s, front);
      }
    }
  }

  lemma StepOfPending(cfg: Config, s: State, e: Event)
    ensures Step(cfg, s, e).pending == PendingStep(cfg, s, e)
  {
    hide PendingSpec.Step, VerdictOn, ImageStep, Messages, SlotSpec.Step, MonitorLoop.Cycle, SouthStatus.Step;
  }

  /** The time a step reads that matters to deadlines. */
  function TimeOf(e: Event): Option<nat> {
    match e
    case CommandReceived(_, _, _, queued, _) => Some(queued)
    case MonitorCycle(_, _, now) => Some(now)
    case _ => None
  }

  ghost function Clock(es: seq<Event>): nat {
    if es == [] then 0
    else if TimeOf(es[|es| - 1]).Some? then TimeOf(es[|es| - 1]).value
    else Clock(es[..|es| - 1])
  }

  /** The clock of the environment never goes back and stays within 64 bits. */
  ghost predicate Timely(cfg: Config, es: seq<Event>) {
    es == [] ||
    (&& Timely(cfg, es[..|es| - 1])
     && Clock(es[..|es| - 1]) <= Clock(es)
     && Clock(es) + 1000 * cfg.gate.execTimeout < TWO_64)
  }

  lemma {:induction false} PendingEventsAreTimely(cfg: Config, s: State, es: seq<Event>)
    requires Timely(cfg, es) && 0 <= cfg.gate.execTimeout
    ensures var pes := PendingEvents(cfg, s, es);
            PendingRuns.Timely(cfg.gate.execTimeout, pes) && PendingRuns.Clock(pes) <= Clock(es)
  {
    hide Run, PendingEventOf, PendingRuns.TimeOf, TimeOf;
    if es != [] {
      var front, e := es[..|es| - 1], es[|es| - 1];
      PendingEventsAreTimely(cfg, s, front);
      var before := PendingEvents(cfg, s, front);
      var pe := PendingEventOf(cfg, Run(cfg, s, front), e);
      TimesAgree(cfg, Run(cfg, s, front), e);
      if pe.Some? {
        TimelyNext(cfg.gate.execTimeout, before, pe.value, Clock(es));
      } else {
        assert PendingEvents(cfg, s, es) == before;
      }
    }
  }

  lemma TimelyNext(T: int, pes: seq<PendingSpec.Event>, pe: PendingSpec.Event, clock: nat)
    requires PendingRuns.Timely(T, pes) && PendingRuns.Clock(pes) <= clock && clock + 1000 * T < TWO_64
    requires PendingRuns.TimeOf(pe).Some? ==> PendingRuns.TimeOf(pe) == Some(clock)
    ensures PendingRuns.Timely(T, pes + [pe]) && PendingRuns.Clock(pes + [pe]) <= clock
  {
    assert (pes + [pe])[..|pes|] == pes;
  }

  lemma TimesAgree(cfg: Config, s: State, e: Event)
    ensures var pe := PendingEventOf(cfg, s, e);
            pe.Some? && PendingRuns.TimeOf(pe.value).Some? ==> PendingRuns.TimeOf(pe.value) == TimeOf(e)
  {
    hide VerdictOn;
  }

  /** What holds of the outstanding commands in every state the server reaches: conservation, the
      frame language, fields that follow from the frames, one queue per key, and, with a timely clock,
      the deadline discipline. */
  lemma PendingTheorems(cfg: Config, s: State, es: seq<Event>)
    requires IsInitial(s)
    ensures var t := Run(cfg, s, es).pending;
            && (forall id: nat ::
                  multiset(PendingRuns.Ids(t.pending))[id] + multiset(PendingRuns.RemovedIds(t.removed))[id]
                  == if id < |t.arrived| then 1 else 0)
            && (forall id: nat :: id < |t.arrived| ==>
                  PendingRuns.IsWord(t.arrived[id].isSelect, PendingRuns.FramesOf(t.sent, id)))
            && (forall f :: f in t.sent ==> f.id < |t.arrived| && f.con == t.arrived[f.id].con)
            && PendingRuns.AllFieldsFit(cfg.gate.execTimeout, t)
            && PendingQueues.Refines(t, PendingQueues.QueueRun(cfg.gate.execTimeout, PendingQueues.NO_QUEUES,
                                                               PendingEvents(cfg, s, es)))
    ensures 0 <= cfg.gate.execTimeout <= PendingRuns.MAX_EXEC_TIMEOUT && Timely(cfg, es) ==>
              var p := Run(cfg, s, es).pending.pending;
              && (forall c :: c in p ==> PendingRuns.DeadlineFits(cfg.gate.execTimeout, c))
              && (forall i, j :: 0 <= i < j < |p| && p[i].deadline != 0 && p[j].deadline != 0 ==>
                    p[i].deadline <= p[j].deadline)
  {
    hide PendingRuns.FramesOf, PendingRuns.IsWord, PendingRuns.AllFieldsFit, PendingQueues.Refines,
         PendingQueues.QueueRun, PendingSpec.Run, PendingEvents, Run;
    var T, pes := cfg.gate.execTimeout, PendingEvents(cfg, s, es);
    PendingIsARun(cfg, s, es);
    PendingRuns.ConservationOfCommands(T, pes);
    PendingRuns.FrameLanguage(T, pes);
    PendingQueues.VectorRefinesQueues(T, pes);
    PendingRuns.FieldsFollowFrames(T, pes);
    if 0 <= T <= PendingRuns.MAX_EXEC_TIMEOUT && Timely(cfg, es) {
      PendingEventsAreTimely(cfg, s, es);
      PendingRuns.RunKeepsDiscipline(T, pes);
      PendingRuns.DeadlineDiscipline(T, pes);
    }
  }

  /** More events of the server mean more steps of the table. */
  lemma {:induction false} PendingEventsSplit(cfg: Config, s: State, a: seq<Event>, b: seq<Event>)
    returns (more: seq<PendingSpec.Event>)
    ensures PendingEvents(cfg, s, a + b) == PendingEvents(cfg, s, a) + more
  {
    hide PendingEventOf, Run;
    if b == [] {
      assert a + b == a;
      more := [];
    } else {
      var n := |b| - 1;
      assert (a + b)[..|a + b| - 1] == a + b[..n];
      var before := PendingEventsSplit(cfg, s, a, b[..n]);
      var pe := PendingEventOf(cfg, Run(cfg, s, a + b[..n]), b[n]);
      more := before + if pe.Some? then [pe.value] else [];
    }
  }

  lemma CycleIsASweep(cfg: Config, s: State, es: seq<Event>, cycle: Event)
    requires cycle.MonitorCycle?
    ensures PendingEvents(cfg, s, es + [cycle]) == PendingEvents(cfg, s, es) + [PendingSpec.Sweep(cycle.now)]
  {
    hide Run;
    assert (es + [cycle])[..|es|] == es;
  }

  /** A cycle of the monitoring thread at a positive time leaves exactly the commands whose deadline is
      not before it, in order, and so none that is completed. */
  lemma CycleKeepsTheUnexpired(cfg: Config, s: State, es: seq<Event>, cycle: Event)
    requires IsInitial(s) && Timely(cfg, es) && cycle.MonitorCycle? && cycle.now > 0
    requires 0 <= cfg.gate.execTimeout <= PendingRuns.MAX_EXEC_TIMEOUT
    ensures var before, after := Run(cfg, s, es).pending.pending, Run(cfg, s, es + [cycle]).pending.pending;
            && (forall c :: c in after <==> c in before && c.deadline >= cycle.now)
            && (forall i, j :: 0 <= i < j < |after| ==> after[i].id < after[j].id)
            && (forall c :: c in after ==> c.phase != PendingSpec.Completed)
  {
    hide PendingSpec.Run, PendingEvents, Run;
    PendingIsARun(cfg, s, es);
    PendingIsARun(cfg, s, es + [cycle]);
    CycleIsASweep(cfg, s, es, cycle);
    PendingEventsAreTimely(cfg, s, es);
    PendingRuns.SweepKeepsTheUnexpired(cfg.gate.execTimeout, PendingEvents(cfg, s, es), cycle.now);
  }

  /** In no run of the server does anything follow a termination, or a negative confirmation once a
      cycle at a positive time has run. */
  lemma NothingFollowsInServer(cfg: Config, s: State, es: seq<Event>, cycle: Event, more: seq<Event>, id: nat)
    requires IsInitial(s) && cycle.MonitorCycle? && cycle.now > 0 && id < |Run(cfg, s, es).pending.arrived|
    requires var w := PendingRuns.FramesOf(Run(cfg, s, es).pending.sent, id);
             PendingRuns.HasNegativeConfirmation(w) || !PendingRuns.AllConfirmations(w)
    ensures var w := PendingRuns.FramesOf(Run(cfg, s, es).pending.sent, id);
            && PendingRuns.FramesOf(Run(cfg, s, es + [cycle] + more).pending.sent, id) == w
            && (!PendingRuns.AllConfirmations(w) ==>
                  PendingRuns.FramesOf(Run(cfg, s, es + more).pending.sent, id) == w)
  {
    hide PendingSpec.Run, PendingEvents, Run, PendingRuns.FramesOf, PendingRuns.AllConfirmations,
         PendingRuns.HasNegativeConfirmation;
    var T, pes := cfg.gate.execTimeout, PendingEvents(cfg, s, es);
    PendingIsARun(cfg, s, es);
    CycleIsASweep(cfg, s, es, cycle);
    var swept := PendingEventsSplit(cfg, s, es + [cycle], more);
    PendingIsARun(cfg, s, es + [cycle] + more);
    PendingRuns.NothingFollowsTheLastFrame(T, pes, cycle.now, swept, id);
    var direct := PendingEventsSplit(cfg, s, es, more);
    PendingIsARun(cfg, s, es + more);
    PendingRuns.NothingFollowsTheLastFrame(T, pes, cycle.now, direct, id);
  }

  /** Why a step of the server may remove a command. */
  ghost predicate ServerJustifies(s: State, e: Event, c: PendingSpec.Command, cause: PendingSpec.Cause) {
    match cause
    case SelectConfirmed =>
      ObjectOf(e).Some? && ObjectOf(e).value.cot == COT_ACTIVATION_CON && c.isSelect
      && c.key == FeedbackEvent(ObjectOf(e).value).key
    case Terminated =>
      ObjectOf(e).Some? && ObjectOf(e).value.cot == COT_ACTIVATION_TERMINATION
      && c.key == FeedbackEvent(ObjectOf(e).value).key
    case TimedOut => e.MonitorCycle? && e.now > c.deadline
    case ConnectionLost =>
      e.ConnectionEvent? && (e.kind == SlotSpec.Closed || e.kind == SlotSpec.Deactivated) && c.con == e.con
      && SlotSpec.Locate(s.slots.groups, e.peer).Some?
    case ShutDown => e.Shutdown?
  }

  ghost predicate IsJustified(s: State, e: Event, r: PendingSpec.Removal) {
    exists c :: c in s.pending.pending && c.id == r.id && ServerJustifies(s, e, c, r.cause)
  }

  /** Every removal that a step of the server logs is of a pending command, for the cause it names. */
  lemma ServerRemovalsAreJustified(cfg: Config, s: State, e: Event)
    ensures var p, q := s.pending, Step(cfg, s, e).pending;
            && p.removed <= q.removed && p.sent <= q.sent && p.arrived <= q.arrived
            && forall i :: |p.removed| <= i < |q.removed| ==> IsJustified(s, e, q.removed[i])
  {
    StepOfPending(cfg, s, e);
    hide Step, VerdictOn, PendingSpec.Step, SlotSpec.Locate;
    var pe := PendingEventOf(cfg, s, e);
    if pe.Some? {
      PendingRuns.RemovalsAreJustified(cfg.gate.execTimeout, s.pending, pe.value);
      var p, q := s.pending, Step(cfg, s, e).pending;
      forall i | |p.removed| <= i < |q.removed|
        ensures IsJustified(s, e, q.removed[i])
      {
        var c :| c in p.pending && c.id == q.removed[i].id && PendingRuns.Justifies(pe.value, c, q.removed[i].cause);
        CauseInServer(cfg, s, e, c, q.removed[i].cause);
      }
    }
  }

  lemma CauseInServer(cfg: Config, s: State, e: Event, c: PendingSpec.Command, cause: PendingSpec.Cause)
    requires var pe := PendingEventOf(cfg, s, e); pe.Some? && PendingRuns.Justifies(pe.value, c, cause)
    ensures ServerJustifies(s, e, c, cause)
  {
    hide VerdictOn, SlotSpec.Locate;
  }

  /** The connection events of a run. */
  function SlotEvents(es: seq<Event>): seq<SlotTracking.Event> {
    if es == [] then []
    else
      var e := es[|es| - 1];
      SlotEvents(es[..|es| - 1]) + if e.ConnectionEvent? then [SlotTracking.Event(e.peer, e.kind)] else []
  }

  lemma {:induction false} SlotsAreARun(cfg: Config, s: State, es: seq<Event>)
    ensures Run(cfg, s, es).slots == SlotTracking.Run(s.slots, SlotEvents(es))
  {
    hide SlotSpec.Step;
    if es != [] {
      var front, e := es[..|es| - 1], es[|es| - 1];
      SlotsAreARun(cfg, s, front);
      StepOfSlots(cfg, Run(cfg, s, front), e);
      var before := SlotEvents(front);
      if e.ConnectionEvent? {
        assert (before + [SlotTracking.Event(e.peer, e.kind)])[..|before|] == before;
      } else {
        assert SlotEvents(es) == before;
      }
    }
  }

  lemma StepOfSlots(cfg: Config, s: State, e: Event)
    ensures Step(cfg, s, e).slots == if e.ConnectionEvent? then SlotSpec.Step(s.slots, e.peer, e.kind) else s.slots
  {
    hide PendingStep, VerdictOn, ImageStep, Messages, SlotSpec.Step, MonitorLoop.Cycle, SouthStatus.Step;
  }

  /** The peer of an address text without colon, or with something after its first one. */
  ghost predicate HasAddressText(p: SlotSpec.Peer) {
    exists text :: SlotAudits.HasNoTrailingColon(text) && p == SlotSpec.PeerOf(text)
  }

  /** The global audit is sound in every run of the server, for the peers that address texts give. */
  lemma ServerAuditIsSound(cfg: Config, s: State, es: seq<Event>)
    requires IsInitial(s) && forall e :: e in es && e.ConnectionEvent? ==> HasAddressText(e.peer)
    ensures var t := Run(cfg, s, es).slots;
            && (forall i :: 0 <= i < |t.globalAudits| - 1 ==> t.globalAudits[i] != t.globalAudits[i + 1])
            && (t.lastGlobal == Some(SlotSpec.Connected) ==> SlotSpec.IsAnyConnectionEstablished(t.groups))
            && (!SlotSpec.IsAnyConnectionEstablished(t.groups) ==> t.lastGlobal == Some(SlotSpec.Disconnected))
  {
    SlotsAreARun(cfg, s, es);
    SlotEventsAreHarmless(s.slots.groups, es);
    SlotAudits.GlobalAuditIsSound(s.slots, SlotEvents(es));
  }

  lemma {:induction false} SlotEventsAreHarmless(groups: seq<SlotSpec.Group>, es: seq<Event>)
    requires SlotAudits.NoEmptyAddress(groups)
    requires forall e :: e in es && e.ConnectionEvent? ==> HasAddressText(e.peer)
    ensures forall e :: e in SlotEvents(es) ==> e.peer.port != "" || !SlotTracking.IsConfigured(groups, e.peer.ip)
  {
    hide SlotTracking.IsConfigured, SlotSpec.PeerOf, SlotAudits.HasNoTrailingColon, SlotAudits.NoEmptyAddress;
    if es != [] {
      var e := es[|es| - 1];
      assert e in es;
      SlotEventsAreHarmless(groups, es[..|es| - 1]);
      if e.ConnectionEvent? {
        var text :| SlotAudits.HasNoTrailingColon(text) && e.peer == SlotSpec.PeerOf(text);
        SlotAudits.TextIsHarmless(groups, text);
      }
    }
  }

  // ---------------------------------------------------------------- south status and the monitor loop

  function SouthHistory(es: seq<Event>): seq<SouthStatus.SouthEvent> {
    if es == [] then []
    else
      var e := es[|es| - 1];
      SouthHistory(es[..|es| - 1])
      + if e.SouthDatapoint? && e.point.SouthEventPoint? then [SouthStatus.SouthEvent(e.asset, e.point.status)] else []
  }

  /** What the cycles of a run read. */
  function CycleInputs(cfg: Config, s: State, es: seq<Event>): seq<MonitorLoop.Input> {
    if es == [] then []
    else
      var front, e := es[..|es| - 1], es[|es| - 1];
      CycleInputs(cfg, s, front) + if e.MonitorCycle? then [CycleInput(Run(cfg, s, front), e)] else []
  }

  lemma StepOfSouthAndLoop(cfg: Config, s: State, e: Event)
    ensures Step(cfg, s, e).south
         == if e.SouthDatapoint? && e.point.SouthEventPoint?
            then SouthStatus.Step(s.south, SouthStatus.SouthEvent(e.asset, e.point.status)) else s.south
    ensures Step(cfg, s, e).loop
         == if e.MonitorCycle? then MonitorLoop.Cycle(cfg.mode, s.loop, CycleInput(s, e)) else s.loop
  {
    hide PendingStep, VerdictOn, ImageStep, Messages, SlotSpec.Step, MonitorLoop.Cycle, SouthStatus.Step, CycleInput;
  }

  lemma {:induction false} SouthAndLoopAreRuns(cfg: Config, s: State, es: seq<Event>)
    requires s.loop == MonitorLoop.INITIAL
    ensures Run(cfg, s, es).south == SouthStatus.Run(s.south, SouthHistory(es))
    ensures Run(cfg, s, es).loop == MonitorLoop.Cycles(cfg.mode, MonitorLoop.INITIAL, CycleInputs(cfg, s, es))
  {
    hide MonitorLoop.Cycle, SouthStatus.Step, Step, CycleInput;
    if es != [] {
      var front, e := es[..|es| - 1], es[|es| - 1];
      SouthAndLoopAreRuns(cfg, s, front);
      StepOfSouthAndLoop(cfg, Run(cfg, s, front), e);
      var history, inputs := SouthHistory(front), CycleInputs(cfg, s, front);
      if e.SouthDatapoint? && e.point.SouthEventPoint? {
        assert (history + [SouthStatus.SouthEvent(e.asset, e.point.status)])[..|history|] == history;
      } else {
        assert SouthHistory(es) == history;
      }
      if e.MonitorCycle? {
        assert (inputs + [CycleInput(Run(cfg, s, front), e)])[..|inputs|] == inputs;
      } else {
        assert CycleInputs(cfg, s, es) == inputs;
      }
    }
  }

  lemma CycleIsLastInput(cfg: Config, s: State, es: seq<Event>, cycle: Event)
    requires cycle.MonitorCycle?
    ensures CycleInputs(cfg, s, es + [cycle]) == CycleInputs(cfg, s, es) + [CycleInput(Run(cfg, s, es), cycle)]
  {
    hide Run, CycleInput;
    assert (es + [cycle])[..|es|] == es;
  }

  /** South-driven control of the whole server: a cycle leaves the protocol server running exactly
      if the last status received for some monitored asset is the text "started"; its actions are
      those that the inputs of the cycles so far call for; over the run they are whole sessions and at
      most the beginning of one more. */
  lemma SouthDrivesTheServer(cfg: Config, s: State, es: seq<Event>, cycle: Event)
    requires IsInitial(s) && cfg.mode == MonitorLoop.ConnectIfSouthConnected && cycle.MonitorCycle?
    ensures Run(cfg, s, es + [cycle]).loop.serverRunning
       <==> exists m :: m in s.south && SouthStatus.LastSays(m.asset, SouthHistory(es), "started")
    ensures var inputs, n := CycleInputs(cfg, s, es + [cycle]), |CycleInputs(cfg, s, es)|;
            && |inputs| == n + 1 && inputs[n].slaveRunning == cycle.slaveRunning
            && (inputs[n].southConnected <==>
                  exists m :: m in s.south && SouthStatus.LastSays(m.asset, SouthHistory(es), "started"))
            && Run(cfg, s, es + [cycle]).loop.actions
               == Run(cfg, s, es).loop.actions + MonitorLoop.CycleActions(inputs, n)
    ensures exists ns :: Run(cfg, s, es).loop.actions <= MonitorLoop.Sessions(ns)
    ensures exists ns :: MonitorLoop.Exit(Run(cfg, s, es).loop).actions == MonitorLoop.Sessions(ns)
  {
    hide SouthStatus.LastSays, SouthStatus.Run, Step, SouthStatus.IsSouthConnected, MonitorLoop.Cycles,
         MonitorLoop.CycleActions;
    SouthAndLoopAreRuns(cfg, s, es);
    SouthAndLoopAreRuns(cfg, s, es + [cycle]);
    CycleIsLastInput(cfg, s, es, cycle);
    SouthStatus.SouthConnectedIff(s.south, SouthHistory(es));
    var inputs, n := CycleInputs(cfg, s, es + [cycle]), |CycleInputs(cfg, s, es)|;
    hide Run, CycleInputs;
    assert inputs[..n] == CycleInputs(cfg, s, es) && inputs[..n + 1] == inputs;
    MonitorLoop.RunsIffSouthConnected(inputs);
    MonitorLoop.ActionsInWords(inputs, n);
    MonitorLoop.ActionsAreSessions(CycleInputs(cfg, s, es));
  }

  // ---------------------------------------------------------------- the process image

  /** The data objects of a run that were taken while the protocol server was running. */
  function Readings(es: seq<Event>): seq<Reading> {
    if es == [] then []
    else
      var e := es[|es| - 1];
      Readings(es[..|es| - 1]) + if ObjectOf(e).Some? then [Reading(ObjectOf(e).value, e.now)] else []
  }

  lemma StepOfImage(cfg: Config, s: State, e: Event)
    ensures Step(cfg, s, e).image
         == if ObjectOf(e).Some? then ImageStep(s.image, ObjectOf(e).value, e.now)
            else if e.CommandReceived? && IsSupportedCommandType(e.command.typeId) && ReachesTable(s, e.command)
            then TouchRow(s.image, e.command.ca)
            else s.image
  {
    hide PendingStep, VerdictOn, ImageStep, Messages, SlotSpec.Step, MonitorLoop.Cycle, SouthStatus.Step, TouchRow,
         ReachesTable;
  }

  lemma SamePointsTransfers(a: Image, b: Image, c: Image)
    requires SamePoints(a, b) && SamePoints(b, c)
    ensures SamePoints(a, c) && SamePoints(c, a)
    ensures WellFormed(a) ==> WellFormed(b) && WellFormed(c)
  {
    forall ca, ioa
      ensures PointAt(a, ca, ioa) == PointAt(b, ca, ioa) == PointAt(c, ca, ioa)
    {
    }
  }

  /** The table of any run against the readings alone, with inserting and without: the same points
      in the same cells; rows are only added. */
  lemma {:induction false} ImageFollowsReadings(cfg: Config, s: State, es: seq<Event>)
    requires Pristine(s.image)
    ensures WellFormed(Run(cfg, s, es).image)
    ensures SamePoints(Run(cfg, s, es).image, ImageAfter(s.image, Readings(es)))
    ensures SamePoints(Run(cfg, s, es).image, IdealAfter(s.image, Readings(es)))
    ensures IdealAfter(s.image, Readings(es)).Keys == s.image.Keys <= Run(cfg, s, es).image.Keys
  {
    hide ImageStep, IdealStep, Step, WellFormed, SamePoints;
    if es == [] {
      PristineIsWellFormed(s.image);
    } else {
      var front, e := es[..|es| - 1], es[|es| - 1];
      ImageFollowsReadings(cfg, s, front);
      var image, readings := Run(cfg, s, front).image, Readings(front);
      StepOfImage(cfg, Run(cfg, s, front), e);
      if ObjectOf(e).Some? {
        var r := Reading(ObjectOf(e).value, e.now);
        assert (readings + [r])[..|readings|] == readings;
        StepKeepsSamePoints(image, ImageAfter(s.image, readings), r.obj, r.now);
        StepKeepsSamePoints(image, IdealAfter(s.image, readings), r.obj, r.now);
        UnionDiscipline(image, r.obj, r.now);
      } else {
        assert Readings(es) == readings;
        if e.CommandReceived? {
          TouchRowKeepsPoints(image, e.command.ca, ImageAfter(s.image, readings));
          TouchRowKeepsPoints(image, e.command.ca, IdealAfter(s.image, readings));
        }
      }
    }
  }

  lemma PristineIsWellFormed(image: Image)
    requires Pristine(image)
    ensures WellFormed(image) && SamePoints(image, image)
  {
  }

  lemma TouchRowKeepsPoints(image: Image, ca: int, other: Image)
    requires WellFormed(image) && SamePoints(image, other)
    ensures WellFormed(TouchRow(image, ca)) && SamePoints(TouchRow(image, ca), other)
    ensures image.Keys <= TouchRow(image, ca).Keys
  {
    TouchKeepsPoints(image, ca, 0);
    SamePointsTransfers(image, TouchRow(image, ca), image);
    SamePointsTransfers(TouchRow(image, ca), image, other);
  }

  /** Process image equals history, for the whole server: whatever else happened, each cell of a
      configured point holds that point with the content computed from the readings alone, and
      there are no other points. */
  lemma ProcessImageEqualsHistory(cfg: Config, s: State, es: seq<Event>, ca: int, ioa: int)
    requires IsInitial(s)
    ensures var p, p' := PointAt(s.image, ca, ioa), PointAt(Run(cfg, s, es).image, ca, ioa);
            && p'.Some? == p.Some?
            && (p.Some? ==>
                  && p.value.dataType != Unsupported
                  && SameDefinition(p.value, p'.value)
                  && p'.value.content == ContentFromHistory(p.value, Readings(es)))
  {
    hide Run, ImageAfter, ContentFromHistory;
    ImageFollowsReadings(cfg, s, es);
    ImageIsHistory(s.image, Readings(es), ca, ioa);
    assert PointAt(Run(cfg, s, es).image, ca, ioa) == PointAt(ImageAfter(s.image, Readings(es)), ca, ioa);
    if PointAt(s.image, ca, ioa).Some? {
      assert IsAt(PointAt(s.image, ca, ioa).value, ca, ioa);
    }
  }

  /** An interrogation of a configured address reports exactly that: of the pristine row's points
      the asked ones, in ascending order, each with the content computed from the readings. */
  lemma InterrogationReportsTheReadings(cfg: Config, s: State, es: seq<Event>, ca: int, qoi: int)
    requires IsInitial(s) && ca in s.image && QOI_STATION <= qoi
    ensures ca in Run(cfg, s, es).image
    ensures var os := Interrogation.RowObjects(Run(cfg, s, es).image[ca], qoi);
            && InterrogationTheorems.AscendingObjects(os)
            && forall o :: o in os <==>
                 && o.ioa in s.image[ca] && Interrogation.IsAnswered(s.image[ca][o.ioa], qoi)
                 && var p := s.image[ca][o.ioa].value;
                    p.dataType != Unsupported
                    && o == InterrogationTheorems.ObjectFor(p.(content := ContentFromHistory(p, Readings(es))))
  {
    hide Run, ImageAfter, ContentFromHistory, Interrogation.RowObjects, WellFormed, Pristine, SamePoints;
    var image, history := Run(cfg, s, es).image, ImageAfter(s.image, Readings(es));
    ImageFollowsReadings(cfg, s, es);
    InterrogationTheorems.RowsStay(s.image, Readings(es), ca);
    InterrogationTheorems.InterrogationReportsHistory(s.image, Readings(es), ca, qoi);
    RowsOfSamePoints(image, history, ca, qoi);
  }

  lemma RowsOfSamePoints(image: Image, image': Image, ca: int, qoi: int)
    requires WellFormed(image) && SamePoints(image, image') && ca in image && ca in image' && QOI_STATION <= qoi
    ensures Interrogation.RowObjects(image[ca], qoi) == Interrogation.RowObjects(image'[ca], qoi)
  {
    forall ioa
      ensures (if ioa in image[ca] then image[ca][ioa] else None)
           == (if ioa in image'[ca] then image'[ca][ioa] else None)
      ensures ioa in image[ca] && image[ca][ioa].Some? ==> IsAt(image[ca][ioa].value, ca, ioa)
    {
      assert PointAt(image, ca, ioa) == PointAt(image', ca, ioa);
    }
    InterrogationTheorems.SamePointsSameObjects(image[ca], image'[ca], ca, qoi);
  }

  /** Every message ever sent on carries the member its point's union held: the union discipline of
      the spontaneous path over whole runs. */
  lemma {:induction false} MessagesAreMeaningful(cfg: Config, s: State, es: seq<Event>)
    requires Pristine(s.image) && s.messages == []
    ensures forall m :: m in Run(cfg, s, es).messages ==> m.info.content != NoMember
  {
    hide ImageStep, Messages, Step, WellFormed;
    if es != [] {
      var front, e := es[..|es| - 1], es[|es| - 1];
      var t := Run(cfg, s, front);
      MessagesAreMeaningful(cfg, s, front);
      ImageFollowsReadings(cfg, s, front);
      StepOfMessages(cfg, t, e);
      if ObjectOf(e).Some? {
        UnionDiscipline(t.image, ObjectOf(e).value, e.now);
      }
    }
  }

  lemma StepOfMessages(cfg: Config, s: State, e: Event)
    ensures Step(cfg, s, e).messages
         == s.messages + if ObjectOf(e).Some? then Messages(s.image, ObjectOf(e).value, e.now) else []
  {
    hide PendingStep, VerdictOn, ImageStep, Messages, SlotSpec.Step, MonitorLoop.Cycle, SouthStatus.Step, TouchRow,
         ReachesTable;
  }

  // ---------------------------------------------------------------- inserted rows and cells are harmless

  /** A command is forwarded in a reachable state if and only if it would be on the pristine table. */
  lemma ForwardedAsOnPristine(cfg: Config, s: State, es: seq<Event>, c: CommandGate.Command, now: nat)
    requires IsInitial(s)
    ensures var t := Run(cfg, s, es);
            VerdictOn(cfg, t, c, now) == CommandGate.Forward <==>
            VerdictOn(cfg, t.(image := s.image), c, now) == CommandGate.Forward
  {
    hide Run, ContentFromHistory, CommandGate.Judge, CommandGate.KindPasses, CommandGate.OriginatorPasses,
         SouthStatus.IsSouthConnected, CommandGate.TimePasses, Terms.CommandFits;
    var t := Run(cfg, s, es);
    var south := SouthStatus.IsSouthConnected(t.south);
    var row, pristine := TouchRow(t.image, c.ca)[c.ca], TouchRow(s.image, c.ca)[c.ca];
    CommandGate.ForwardedIff(cfg.gate, south, row, c, now);
    CommandGate.ForwardedIff(cfg.gate, south, pristine, c, now);
    if c.io.Some? {
      var ioa := c.io.value.ioa;
      ProcessImageEqualsHistory(cfg, s, es, c.ca, ioa);
      forall p
        ensures CommandGate.IsAddressed(row, c, p) <==> PointAt(t.image, c.ca, ioa) == Some(p)
        ensures CommandGate.IsAddressed(pristine, c, p) <==> PointAt(s.image, c.ca, ioa) == Some(p)
      {
      }
      if PointAt(s.image, c.ca, ioa).Some? {
        assert CommandGate.IsAddressed(pristine, c, PointAt(s.image, c.ca, ioa).value);
        assert CommandGate.IsAddressed(row, c, PointAt(t.image, c.ca, ioa).value);
      }
    }
  }

  /** An interrogation in a reachable state is answered as on the table that readings changed but
      lookups did not, if and only if the qualifier is out of range, or the address is configured
      or has no row yet, or, for broadcast, no row was added. */
  lemma AnsweredAsWithoutInserting(cfg: Config, s: State, es: seq<Event>, con: Connection, ca: int, oa: int, qoi: int)
    requires IsInitial(s)
    ensures var t := Run(cfg, s, es);
            Interrogation.Answer(cfg.limits, con, t.image, ca, oa, qoi)
            == Interrogation.Answer(cfg.limits, con, IdealAfter(s.image, Readings(es)), ca, oa, qoi) <==>
              || qoi < QOI_STATION || qoi > QOI_GROUP_16
              || (if Terms.NamesAll(cfg.limits.caSize, ca) then t.image.Keys == s.image.Keys
                  else ca in s.image || ca !in t.image)
  {
    hide Run, IdealAfter, ImageAfter, Interrogation.Answer, WellFormed, SamePoints;
    var image, ideal := Run(cfg, s, es).image, IdealAfter(s.image, Readings(es));
    ImageFollowsReadings(cfg, s, es);
    assert SamePoints(ideal, image) && WellFormed(ideal) by {
      SamePointsSymmetric(image, ideal);
    }
    InterrogationTheorems.AnswerOnGrownTable(cfg.limits, con, ideal, image, ca, oa, qoi);
  }

  lemma SamePointsSymmetric(a: Image, b: Image)
    requires SamePoints(a, b) && WellFormed(a)
    ensures SamePoints(b, a) && WellFormed(b)
  {
    forall ca, ioa
      ensures PointAt(b, ca, ioa) == PointAt(a, ca, ioa)
    {
    }
  }
}
