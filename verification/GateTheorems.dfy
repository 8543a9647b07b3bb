/** What the command gate does over whole runs of the server: every supported command is answered once
    or forwarded once, and rows that lookups insert change a verdict only where said here. */
module GateTheorems {
  import opened Machine
  import opened Protocol
  import opened Points
  import opened ProcessImage
  import opened ServerSpec
  import opened ServerTheorems
  import CommandGate
  import MonitorLoop
  import PendingSpec
  import SlotSpec
  import SouthStatus
  import Terms

  // ---------------------------------------------------------------- answers and forwards

  /** Some monitored asset is started. */
  ghost predicate SouthIsUp(s: State) {
    exists m :: m in s.south && m.connx == SouthStatus.Started
  }

  /** What a command needs to be handed to the south side, read off the state and the event. */
  ghost predicate IsPassed(cfg: Config, s: State, e: Event)
    requires e.CommandReceived?
  {
    var c := e.command;
    && Terms.IsCommandType(c.typeId) && SouthIsUp(s) && c.cot == 6 && c.io.Some?
    && CommandGate.OriginatorPasses(cfg.gate, c.oa) && CommandGate.Fits(RowAt(s.image, c.ca), c)
    && CommandGate.KindPasses(cfg.gate, c.typeId) && CommandGate.TimePasses(cfg.gate, c, e.now)
  }

  /** The negative answer to a command: to its connection, under its type and common address, with the
      cause that the state and the event give. */
  ghost predicate IsReplyTo(cfg: Config, s: State, e: Event, r: Reply)
    requires e.CommandReceived?
  {
    && r.CommandReply? && r.con == e.con && r.typeId == e.command.typeId && r.ca == e.command.ca && r.negative
    && CommandGate.CauseIs(cfg.gate, SouthIsUp(s), RowAt(s.image, e.command.ca), e.command, e.now, r.cot)
  }

  /** Whether a step hands a command to the south side. */
  predicate Forwards(cfg: Config, s: State, e: Event) {
    e.CommandReceived? && IsSupportedCommandType(e.command.typeId)
    && VerdictOn(cfg, s, e.command, e.now) == CommandGate.Forward
  }

  lemma SouthInWords(ms: seq<SouthStatus.Monitor>)
    ensures SouthStatus.IsSouthConnected(ms) <==> exists m :: m in ms && m.connx == SouthStatus.Started
  {
    if SouthStatus.IsSouthConnected(ms) {
      var i :| 0 <= i < |ms| && ms[i].connx == SouthStatus.Started;
      assert ms[i] in ms;
    }
  }

  lemma ForwardsIff(cfg: Config, s: State, e: Event)
    requires e.CommandReceived?
    ensures Forwards(cfg, s, e) <==> IsPassed(cfg, s, e)
  {
    SouthInWords(s.south);
    Terms.TypesByNumber(e.command.typeId, SP, true);
    CommandGate.ForwardedIff(cfg.gate, SouthStatus.IsSouthConnected(s.south), RowAt(s.image, e.command.ca), e.command,
                             e.now);
    hide CommandGate.Judge, SouthStatus.IsSouthConnected, CommandGate.OriginatorPasses, CommandGate.Fits,
         CommandGate.KindPasses, CommandGate.TimePasses;
    assert TouchRow(s.image, e.command.ca)[e.command.ca] == RowAt(s.image, e.command.ca);
  }

  lemma VerdictSays(cfg: Config, s: State, e: Event)
    requires e.CommandReceived?
    ensures var verdict := VerdictOn(cfg, s, e.command, e.now);
            CommandGate.CauseIs(cfg.gate, SouthIsUp(s), RowAt(s.image, e.command.ca), e.command, e.now,
                                if verdict.Reject? then verdict.cot else 7)
  {
    SouthInWords(s.south);
    CommandGate.RejectedIff(cfg.gate, SouthStatus.IsSouthConnected(s.south), RowAt(s.image, e.command.ca), e.command,
                            e.now);
    hide CommandGate.Judge, SouthStatus.IsSouthConnected, CommandGate.CauseIs;
    assert TouchRow(s.image, e.command.ca)[e.command.ca] == RowAt(s.image, e.command.ca);
  }

  /** What the answer to a step is, in terms of its verdict. */
  lemma RepliesByVerdict(cfg: Config, s: State, e: Event)
    requires e.CommandReceived? && IsSupportedCommandType(e.command.typeId)
    ensures var verdict, c := VerdictOn(cfg, s, e.command, e.now), e.command;
            Step(cfg, s, e).replies
            == if verdict.Forward? && e.result > 0 then s.replies
               else s.replies + [CommandReply(e.con, c.typeId, c.ca, if verdict.Reject? then verdict.cot else 7, true)]
  {
    hide VerdictOn, PendingSpec.Step;
  }

  /** What it does to operations and table. */
  lemma ForwardsByVerdict(cfg: Config, s: State, e: Event)
    requires e.CommandReceived? && IsSupportedCommandType(e.command.typeId)
    ensures var t, c := Step(cfg, s, e), e.command;
            && (t.operations == if !Forwards(cfg, s, e) then s.operations
                                else s.operations + [Operation(e.con, c.typeId, c.ca, c.io.value.ioa)])
            && (if Forwards(cfg, s, e) then
                  exists p :: t.pending.pending == s.pending.pending + [p]
                    && p.con == e.con && p.key == PendingSpec.Key(c.typeId, c.ca, c.io.value.ioa)
                    && p.received == e.queued && p.phase == PendingSpec.AwaitCon
                    && (p.isSelect <==> c.typeId in {45, 46, 47, 58, 59, 60} && c.io.value.isSelect)
                else t.pending == s.pending)
  {
    hide VerdictOn, ReachesTable;
    Terms.TypesByNumber(e.command.typeId, SP, true);
    var t := Step(cfg, s, e);
    if Forwards(cfg, s, e) {
      var p := t.pending.pending[|s.pending.pending|];
      assert t.pending.pending == s.pending.pending + [p];
    }
  }

  /** Gate exactness as a step: a command of the supported types is either forwarded successfully and
      not answered, or answered at once by one negative frame with the cause that state and event
      give. The south operation is called at most once, and exactly for what the gate passes; then the
      command is pending, also if the operation fails, as a select where its type has that bit and it
      is set. */
  lemma CommandIsAnsweredOnce(cfg: Config, s: State, e: Event)
    requires e.CommandReceived? && Terms.IsCommandType(e.command.typeId)
    ensures var t, c := Step(cfg, s, e), e.command;
            && (t.operations == if !IsPassed(cfg, s, e) then s.operations
                                else s.operations + [Operation(e.con, c.typeId, c.ca, c.io.value.ioa)])
            && (if IsPassed(cfg, s, e) && e.result > 0 then t.replies == s.replies
                else exists r :: t.replies == s.replies + [r] && IsReplyTo(cfg, s, e, r))
            && (if IsPassed(cfg, s, e) then
                  exists p :: t.pending.pending == s.pending.pending + [p]
                    && p.con == e.con && p.key == PendingSpec.Key(c.typeId, c.ca, c.io.value.ioa)
                    && p.received == e.queued && p.phase == PendingSpec.AwaitCon
                    && (p.isSelect <==> c.typeId in {45, 46, 47, 58, 59, 60} && c.io.value.isSelect)
                else t.pending == s.pending)
  {
    Terms.TypesByNumber(e.command.typeId, SP, true);
    ForwardsIff(cfg, s, e);
    RepliesByVerdict(cfg, s, e);
    ForwardsByVerdict(cfg, s, e);
    VerdictSays(cfg, s, e);
    hide Step, VerdictOn, IsPassed, CommandGate.CauseIs, SouthIsUp, IsSupportedCommandType;
    if !(IsPassed(cfg, s, e) && e.result > 0) {
      var verdict := VerdictOn(cfg, s, e.command, e.now);
      var r := CommandReply(e.con, e.command.typeId, e.command.ca, if verdict.Reject? then verdict.cot else 7, true);
      assert IsReplyTo(cfg, s, e, r);
    }
  }

  /** A command of another type changes nothing. */
  lemma OtherTypesAreIgnored(cfg: Config, s: State, e: Event)
    requires e.CommandReceived? && !Terms.IsCommandType(e.command.typeId)
    ensures Step(cfg, s, e) == s
  {
    hide VerdictOn;
    Terms.TypesByNumber(e.command.typeId, SP, true);
  }

  /** Number of supported commands received, and of those that were forwarded successfully. */
  function Received(es: seq<Event>): nat {
    if es == [] then 0
    else
      var e := es[|es| - 1];
      Received(es[..|es| - 1]) + if e.CommandReceived? && IsSupportedCommandType(e.command.typeId) then 1 else 0
  }

  function ForwardedWell(cfg: Config, s: State, es: seq<Event>): nat {
    if es == [] then 0
    else
      var front, e := es[..|es| - 1], es[|es| - 1];
      ForwardedWell(cfg, s, front) + if Forwards(cfg, Run(cfg, s, front), e) && e.result > 0 then 1 else 0
  }

  /** Number of immediate answers to commands. */
  function CommandReplies(replies: seq<Reply>): nat {
    if replies == [] then 0
    else CommandReplies(replies[..|replies| - 1]) + if replies[|replies| - 1].CommandReply? then 1 else 0
  }

  lemma {:induction false} RepliesAppend(a: seq<Reply>, b: seq<Reply>)
    ensures CommandReplies(a + b) == CommandReplies(a) + CommandReplies(b)
  {
    if b == [] {
      assert a + b == a;
    } else {
      assert (a + b)[..|a + b| - 1] == a + b[..|b| - 1];
      RepliesAppend(a, b[..|b| - 1]);
    }
  }

  lemma {:induction false} NoCommandReplies(replies: seq<Reply>)
    requires forall r :: r in replies ==> r.InterrogationReply?
    ensures CommandReplies(replies) == 0
  {
    if replies != [] {
      assert replies[|replies| - 1] in replies;
      NoCommandReplies(replies[..|replies| - 1]);
    }
  }

  /** Each operation is of the command that arrived with it. */
  ghost predicate OperationsAreArrivals(s: State) {
    && |s.operations| == |s.pending.arrived|
    && forall i :: 0 <= i < |s.operations| ==>
         var o, c := s.operations[i], s.pending.arrived[i];
         c.con == o.con && c.key == PendingSpec.Key(o.typeId, o.ca, o.ioa)
  }

  ghost predicate CommandRepliesAreNegative(replies: seq<Reply>) {
    forall r :: r in replies && r.CommandReply? ==> r.negative
  }

  lemma ArrivalsOf(T: int, s: PendingSpec.State, e: PendingSpec.Event)
    ensures PendingSpec.Step(T, s, e).arrived
         == s.arrived + if e.Arrive?
                        then [PendingSpec.NewCommand(|s.arrived|, e.con, e.key, e.isSelect, e.now, T)] else []
  {
  }

  /** What a step adds to operations and arrivals: one of each for a forward, nothing otherwise. */
  lemma OneArrivalPerForward(cfg: Config, s: State, e: Event)
    ensures var t := Step(cfg, s, e);
            if Forwards(cfg, s, e) then
              exists p :: t.pending.arrived == s.pending.arrived + [p] && p.con == e.con && p.key == KeyOf(e.command)
                && t.operations == s.operations
                                   + [Operation(e.con, e.command.typeId, e.command.ca, e.command.io.value.ioa)]
            else t.pending.arrived == s.pending.arrived && t.operations == s.operations
  {
    hide VerdictOn, ReachesTable, ImageStep, Messages, PendingSpec.Step, SlotSpec.Step, SlotSpec.CleansUp,
         MonitorLoop.Cycle, SouthStatus.Step;
    StepOfPending(cfg, s, e);
    var pe := PendingEventOf(cfg, s, e);
    if pe.Some? {
      ArrivalsOf(cfg.gate.execTimeout, s.pending, pe.value);
    }
  }

  /** What a step adds to the replies. */
  lemma RepliesOfStep(cfg: Config, s: State, e: Event) returns (added: seq<Reply>)
    ensures Step(cfg, s, e).replies == s.replies + added
    ensures CommandRepliesAreNegative(added)
    ensures CommandReplies(added) + (if Forwards(cfg, s, e) && e.result > 0 then 1 else 0)
         == if e.CommandReceived? && IsSupportedCommandType(e.command.typeId) then 1 else 0
  {
    if e.CommandReceived? && IsSupportedCommandType(e.command.typeId) {
      CommandIsAnsweredOnce(cfg, s, e);
      hide Step, VerdictOn;
      if Forwards(cfg, s, e) && e.result > 0 {
        added := [];
      } else {
        var r :| Step(cfg, s, e).replies == s.replies + [r] && r.CommandReply? && r.negative;
        added := [r];
        assert added[..0] == [];
      }
    } else {
      hide VerdictOn, PendingStep, ImageStep, Messages, SlotSpec.Step, MonitorLoop.Cycle, SouthStatus.Step;
      added := Step(cfg, s, e).replies[|s.replies|..];
      NoCommandReplies(added);
    }
  }

  /** Gate exactness over runs: the operations called are, entry by entry, the commands that arrived
      in the table; every immediate answer to a command is negative; and there are as many of them as
      supported commands received less those forwarded successfully. */
  lemma {:induction false} GateOverRuns(cfg: Config, s: State, es: seq<Event>)
    requires IsInitial(s)
    ensures var t := Run(cfg, s, es);
            && OperationsAreArrivals(t)
            && CommandRepliesAreNegative(t.replies)
            && CommandReplies(t.replies) + ForwardedWell(cfg, s, es) == Received(es)
  {
    hide Step, Forwards, CommandRepliesAreNegative;
    if es == [] {
      assert CommandRepliesAreNegative([]) by {
        NothingIsNegative();
      }
    } else {
      var front, e := es[..|es| - 1], es[|es| - 1];
      GateOverRuns(cfg, s, front);
      var t := Run(cfg, s, front);
      ArrivalsStay(cfg, t, e);
      var added := RepliesOfStep(cfg, t, e);
      RepliesAppend(t.replies, added);
      NegativesAppend(t.replies, added);
    }
  }

  lemma NothingIsNegative()
    ensures CommandRepliesAreNegative([])
  {
  }

  lemma NegativesAppend(a: seq<Reply>, b: seq<Reply>)
    requires CommandRepliesAreNegative(a) && CommandRepliesAreNegative(b)
    ensures CommandRepliesAreNegative(a + b)
  {
  }

  lemma ArrivalsStay(cfg: Config, s: State, e: Event)
    requires OperationsAreArrivals(s)
    ensures OperationsAreArrivals(Step(cfg, s, e))
  {
    hide Step;
    OneArrivalPerForward(cfg, s, e);
    hide Forwards;
  }

  // ---------------------------------------------------------------- verdicts on a grown table

  /** The object addresses at which readings looked in the row of a common address. */
  function Addressed(history: seq<Reading>, ca: int): set<int> {
    if history == [] then {}
    else Addressed(history[..|history| - 1], ca) + LooksAt(history[|history| - 1].obj, ca)
  }

  function LooksAt(obj: DataObject, ca: int): set<int> {
    if !IsFeedback(obj) && IsComplete(obj) && obj.ca == ca then {obj.ioa} else {}
  }

  lemma RowOfStep(cfg: Config, s: State, e: Event, ca: int)
    ensures RowAt(Step(cfg, s, e).image, ca).Keys
         == RowAt(s.image, ca).Keys + if ObjectOf(e).Some? then LooksAt(ObjectOf(e).value, ca) else {}
  {
    hide Step, Updated, IsMessageTypeMatching, ReachesTable, ObjectOf;
    StepOfImage(cfg, s, e);
  }

  /** Over every run a row has the cells it was configured with and those that readings looked at;
      commands add none. */
  lemma {:induction false} CellsOfRow(cfg: Config, s: State, es: seq<Event>, ca: int)
    ensures RowAt(Run(cfg, s, es).image, ca).Keys == RowAt(s.image, ca).Keys + Addressed(Readings(es), ca)
  {
    hide Step, ObjectOf, RowAt, LooksAt;
    if es != [] {
      var front, e := es[..|es| - 1], es[|es| - 1];
      CellsOfRow(cfg, s, front, ca);
      RowOfStep(cfg, Run(cfg, s, front), e, ca);
      var readings := Readings(front);
      if ObjectOf(e).Some? {
        var r := Reading(ObjectOf(e).value, e.now);
        assert Readings(es) == readings + [r] && (readings + [r])[..|readings|] == readings;
      } else {
        assert Readings(es) == readings;
      }
    }
  }

  /** The verdict looks at a row in two ways: whether it is empty, and what point the cell holds. */
  lemma JudgeLooksAt(s: CommandGate.Settings, south: bool, row: map<int, Option<Point>>, row': map<int, Option<Point>>,
                     c: CommandGate.Command, now: nat)
    requires row == map[] <==> row' == map[]
    requires c.io.Some? ==>
               var ioa := c.io.value.ioa;
               var p, p' := if ioa in row then row[ioa] else None, if ioa in row' then row'[ioa] else None;
               p.Some? == p'.Some? && (p.Some? ==> SameDefinition(p.value, p'.value))
    ensures CommandGate.Judge(s, south, row, c, now) == CommandGate.Judge(s, south, row', c, now)
  {
    hide CommandGate.CheckIfCmdTimeIsValid, CommandGate.IsOriginatorAllowed, IsCommandWithTimestamp, IsMatchingCommand;
  }

  /** The one difference an inserted cell makes to a rejection: where the pristine table has no cell
      for the common address and the grown one has, the cause is no longer "unknown common address". */
  lemma RejectionOnGrownRow(s: CommandGate.Settings, south: bool, row: map<int, Option<Point>>,
                            c: CommandGate.Command, now: nat)
    requires forall ioa :: ioa in row ==> row[ioa].None?
    ensures CommandGate.Judge(s, south, row, c, now) == CommandGate.Judge(s, south, map[], c, now) <==>
              !south || c.cot != COT_ACTIVATION || c.io.None? || row == map[]
  {
    hide CommandGate.CheckIfCmdTimeIsValid, CommandGate.IsOriginatorAllowed;
  }

  /** Over every run the whole verdict, with its cause, is the one on the pristine table, unless the
      command gets as far as the table, no cell is configured for its common address, and some
      reading for that address was taken before. */
  lemma VerdictAsOnPristineIff(cfg: Config, s: State, es: seq<Event>, c: CommandGate.Command, now: nat)
    requires IsInitial(s)
    ensures var t := Run(cfg, s, es);
            VerdictOn(cfg, t, c, now) == VerdictOn(cfg, t.(image := s.image), c, now) <==>
              !ReachesTable(t, c) || RowAt(s.image, c.ca) != map[] || Addressed(Readings(es), c.ca) == {}
  {
    hide Run, ContentFromHistory, CommandGate.Judge, SouthStatus.IsSouthConnected, Addressed, Readings;
    var t := Run(cfg, s, es);
    var row, pristine := RowAt(t.image, c.ca), RowAt(s.image, c.ca);
    CellsOfRow(cfg, s, es, c.ca);
    EmptyKeys(row);
    EmptyKeys(pristine);
    forall ioa
      ensures var p, p' := PointAt(s.image, c.ca, ioa), PointAt(t.image, c.ca, ioa);
              p.Some? == p'.Some? && (p.Some? ==> SameDefinition(p.value, p'.value))
    {
      ProcessImageEqualsHistory(cfg, s, es, c.ca, ioa);
    }
    var south := SouthStatus.IsSouthConnected(t.south);
    if (row == map[]) == (pristine == map[]) {
      if c.io.Some? {
        assert PointAt(s.image, c.ca, c.io.value.ioa).Some? == PointAt(t.image, c.ca, c.io.value.ioa).Some?;
      }
      JudgeLooksAt(cfg.gate, south, pristine, row, c, now);
    } else {
      assert forall ioa :: ioa in row ==> row[ioa] == PointAt(t.image, c.ca, ioa) && PointAt(s.image, c.ca, ioa).None?;
      RejectionOnGrownRow(cfg.gate, south, row, c, now);
    }
  }

  lemma EmptyKeys(row: map<int, Option<Point>>)
    ensures row == map[] <==> row.Keys == {}
  {
  }
}
