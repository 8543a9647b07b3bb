/** The server object: its parts and its handlers, each proved to be one step of the state machine. */
module Server {
  import opened Machine
  import opened Protocol
  import opened Points
  import opened ProcessImage
  import opened ServerSpec
  import CommandGate
  import EventTheorems
  import ExchangeImport
  import ExchangeTable
  import ImportTheorems
  import Interrogation
  import MonitorLoop
  import OutstandingCommands
  import PendingSpec
  import RedundancyGroups
  import SlotAudits
  import SlotSpec
  import SouthReadings
  import SouthStatus

  class Iec104Server {
    const cfg: Config
    const commands: OutstandingCommands.CommandTable
    const table: ExchangeTable.PointTable
    const tracker: RedundancyGroups.ConnectionTracker
    const south: SouthStatus.SouthMonitors
    const thread: MonitorLoop.MonitoringThread
    ghost var replies: seq<Reply>
    ghost var operations: seq<Operation>

    ghost predicate Valid()
      reads commands, table`rows, tracker.groups
    {
      && commands.Valid() && table.Valid() && tracker.Valid() && south.Valid()
      && commands.execTimeout == cfg.gate.execTimeout && thread.mode == cfg.mode
    }

    /** The whole server as a value. */
    ghost function Abs(): State
      reads this, commands, commands.commands, table, table.Cells(), tracker, tracker.groups, tracker.Slots(),
            south.monitors, thread
    {
      State(commands.Abs(), table.Abs(), tracker.Abs(), south.Abs(), thread.Abs(), table.sent, replies, operations)
    }

    /** The objects that handling an event may change. */
    ghost function Footprint(): set<object>
      reads commands, table`rows, tracker.groups
    {
      {this, commands, table, tracker, thread} + (set c | c in commands.commands) + table.Cells() + tracker.Slots()
      + (set m | m in south.monitors)
    }

    /** The parts that handlers write to are in the footprint. */
    lemma CoversParts()
      ensures {this, commands, table, tracker, thread} <= Footprint()
      ensures forall c :: c in commands.commands ==> c in Footprint()
      ensures forall c :: c in table.Cells() ==> c in Footprint()
      ensures forall c :: c in tracker.Slots() ==> c in Footprint()
      ensures forall m :: m in south.monitors ==> m in Footprint()
    {
    }

    /** Objects may join only if they are new. */
    twostate lemma FootprintGrows()
      requires table.Cells() == old(table.Cells()) && tracker.Slots() == old(tracker.Slots())
      requires forall c :: c in commands.commands ==> c in old(commands.commands) || fresh(c)
      ensures forall o :: o in Footprint() ==> o in old(Footprint()) || fresh(o)
    {
    }

    constructor (cfg: Config, commands: OutstandingCommands.CommandTable, table: ExchangeTable.PointTable,
                 tracker: RedundancyGroups.ConnectionTracker, south: SouthStatus.SouthMonitors,
                 thread: MonitorLoop.MonitoringThread)
      requires commands.Valid() && table.Valid() && tracker.Valid() && south.Valid()
      requires commands.execTimeout == cfg.gate.execTimeout && thread.mode == cfg.mode
      ensures Valid() && this.commands == commands && this.table == table && this.tracker == tracker
      ensures this.cfg == cfg && this.south == south && this.thread == thread && replies == [] && operations == []
    {
      this.cfg, this.commands, this.table, this.tracker := cfg, commands, table, tracker;
      this.south, this.thread, this.replies, this.operations := south, thread, [], [];
    }

    /** `checkIfSouthConnected` and the cascade of `validateCommand` up to its verdict, over the row
        that the lookup yields. Types and kinds of points never change. */
    method Judge(c: CommandGate.Command, now: nat) returns (verdict: CommandGate.Verdict)
      requires Valid()
      modifies table`rows
      ensures Valid() && table.Cells() == old(table.Cells())
      ensures verdict == VerdictOn(cfg, old(Abs()), c, now) && (verdict.Forward? ==> c.io.Some?)
      ensures table.Abs() == if ReachesTable(old(Abs()), c) then TouchRow(old(table.Abs()), c.ca) else old(table.Abs())
    {
      hide CommandGate.CheckIfCmdTimeIsValid, CommandGate.IsOriginatorAllowed, IsCommandWithTimestamp,
           IsMatchingCommand, CommandGate.AllowCmdWithTime, CommandGate.AllowCmdWithoutTime,
           SouthStatus.IsSouthConnected;
      var connected := south.CheckIfSouthConnected();
      if !connected {
        return CommandGate.Reject(COT_ACTIVATION_CON);
      }
      if c.cot != COT_ACTIVATION {
        return CommandGate.Reject(COT_UNKNOWN_COT);
      }
      if c.io.None? {
        return CommandGate.Reject(COT_UNKNOWN_TYPE_ID);
      }
      var row := table.Row(c.ca);
      if row == map[] {
        return CommandGate.Reject(COT_UNKNOWN_CA);
      }
      if !CommandGate.IsOriginatorAllowed(cfg.gate, c.oa) {
        return CommandGate.Reject(COT_ACTIVATION_CON);
      }
      var dp := if c.io.value.ioa in row then row[c.io.value.ioa] else null;
      if dp == null {
        return CommandGate.Reject(COT_UNKNOWN_IOA);
      }
      if !IsMatchingCommand(dp.isCommand, dp.dataType, c.typeId) {
        return CommandGate.Reject(COT_UNKNOWN_TYPE_ID);
      }
      if IsCommandWithTimestamp(c.typeId) {
        if !CommandGate.AllowCmdWithTime(cfg.gate) {
          return CommandGate.Reject(COT_UNKNOWN_TYPE_ID);
        }
        if !CommandGate.CheckIfCmdTimeIsValid(cfg.gate, c.typeId, c.io.value, now) {
          return CommandGate.Reject(COT_ACTIVATION_CON);
        }
      } else {
        if !CommandGate.AllowCmdWithoutTime(cfg.gate) {
          return CommandGate.Reject(COT_UNKNOWN_TYPE_ID);
        }
      }
      return CommandGate.Forward;
    }

    /** The same, seen from the whole server: at most the table grew by an empty row. */
    method ValidateCommand(c: CommandGate.Command, now: nat) returns (verdict: CommandGate.Verdict)
      requires Valid()
      modifies table`rows
      ensures Valid() && forall o :: o in Footprint() ==> o in old(Footprint()) || fresh(o)
      ensures commands.commands == old(commands.commands)
      ensures verdict == VerdictOn(cfg, old(Abs()), c, now) && (verdict.Forward? ==> c.io.Some?)
      ensures Abs() == old(Abs()).(
                image := if ReachesTable(old(Abs()), c) then TouchRow(old(Abs()).image, c.ca) else old(Abs()).image)
    {
      hide ReachesTable, VerdictOn;
      verdict := Judge(c, now);
      commands.Stays();
      tracker.Stays();
      south.Stays();
      FootprintGrows();
    }

    /** `forwardCommand`: the command is put into the table before the operation is called; `result`
        is what the operation returns. */
    method ForwardCommand(con: Connection, c: CommandGate.Command, queued: nat, result: int) returns (forwarded: bool)
      requires Valid() && c.io.Some?
      modifies `operations, commands
      ensures Valid() && forall o :: o in Footprint() ==> o in old(Footprint()) || fresh(o)
      ensures forwarded == (result > 0)
      ensures Abs() == old(Abs()).(
                pending := PendingSpec.Step(cfg.gate.execTimeout, old(Abs()).pending,
                  PendingSpec.Arrive(con, KeyOf(c), HasSelectBit(c.typeId) && c.io.value.isSelect, queued)),
                operations := old(Abs()).operations + [Operation(con, c.typeId, c.ca, c.io.value.ioa)])
    {
      hide PendingSpec.Step;
      commands.AddToOutstandingCommands(con, KeyOf(c), HasSelectBit(c.typeId) && c.io.value.isSelect, queued);
      ghost var pending := commands.Abs();
      operations := operations + [Operation(con, c.typeId, c.ca, c.io.value.ioa)];
      table.Stays();
      tracker.Stays();
      south.Stays();
      FootprintGrows();
      assert commands.Abs() == pending;
      return result > 0;
    }

    /** Sending frames at once touches nothing else. */
    ghost method SendReplies(frames: seq<Reply>)
      requires Valid()
      modifies `replies
      ensures Valid() && forall o :: o in Footprint() ==> o in old(Footprint()) || fresh(o)
      ensures Abs() == old(Abs()).(replies := old(Abs()).replies + frames)
    {
      replies := replies + frames;
      commands.Stays();
      table.Stays();
      tracker.Stays();
      south.Stays();
      FootprintGrows();
    }

    /** `asduHandler`. */
    method AsduHandler(con: Connection, c: CommandGate.Command, now: nat, queued: nat, result: int)
      requires Valid()
      modifies `replies, `operations, table`rows, commands
      ensures Valid() && forall o :: o in Footprint() ==> o in old(Footprint()) || fresh(o)
      ensures Abs() == Step(cfg, old(Abs()), CommandReceived(con, c, now, queued, result))
    {
      hide CommandGate.Judge, PendingSpec.Step, ReachesTable, VerdictOn, Footprint, Abs, Valid;
      if !IsSupportedCommandType(c.typeId) {
        return;
      }
      var verdict := ValidateCommand(c, now);
      var respond, cot := true, COT_ACTIVATION_CON;
      if verdict.Reject? {
        cot := verdict.cot;
      } else {
        var forwarded := ForwardCommand(con, c, queued, result);
        respond := !forwarded;
      }
      if respond {
        SendReplies([CommandReply(con, c.typeId, c.ca, cot, true)]);
      }
    }

    /** `connectionEventHandler`. */
    method ConnectionEventHandler(con: Connection, address: string, kind: SlotSpec.EventKind)
      requires Valid()
      modifies tracker, tracker.Slots(), commands`commands, commands`removed
      ensures Valid() && forall o :: o in Footprint() ==> o in old(Footprint()) || fresh(o)
      ensures Abs() == Step(cfg, old(Abs()), ConnectionEvent(con, SlotSpec.PeerOf(address), kind))
    {
      hide PendingSpec.Step, SlotSpec.Step, SlotSpec.CleansUp, SlotSpec.PeerOf, Footprint, Abs, Valid;
      var cleansUp := TrackEvent(address, kind);
      if cleansUp {
        RemoveCommandsOf(con);
      }
    }

    /** The part of it that is about slots and audits. */
    method TrackEvent(address: string, kind: SlotSpec.EventKind) returns (cleansUp: bool)
      requires Valid()
      modifies tracker, tracker.Slots()
      ensures Valid() && forall o :: o in Footprint() ==> o in old(Footprint()) || fresh(o)
      ensures cleansUp == SlotSpec.CleansUp(old(Abs()).slots.groups, SlotSpec.PeerOf(address), kind)
      ensures Abs() == old(Abs()).(slots := SlotSpec.Step(old(Abs()).slots, SlotSpec.PeerOf(address), kind))
    {
      hide SlotSpec.Step, SlotSpec.CleansUp, SlotSpec.PeerOf;
      cleansUp := tracker.HandleEvent(address, kind);
      commands.Stays();
      table.Stays();
      south.Stays();
      FootprintGrows();
    }

    method RemoveCommandsOf(con: Connection)
      requires Valid()
      modifies commands`commands, commands`removed
      ensures Valid() && forall o :: o in Footprint() ==> o in old(Footprint()) || fresh(o)
      ensures Abs() == old(Abs()).(
                pending := PendingSpec.Step(cfg.gate.execTimeout, old(Abs()).pending, PendingSpec.Lose(con)))
    {
      hide PendingSpec.Step;
      commands.RemoveOutstandingCommands(con);
      table.Stays();
      tracker.Stays();
      south.Stays();
      FootprintGrows();
    }

    /** `interrogationHandler`. */
    method InterrogationHandler(con: Connection, ca: int, oa: int, qoi: int)
      requires Valid()
      modifies `replies
      ensures Valid() && forall o :: o in Footprint() ==> o in old(Footprint()) || fresh(o)
      ensures Abs() == Step(cfg, old(Abs()), InterrogationReceived(con, ca, oa, qoi))
    {
      hide Interrogation.Answer, Footprint, Valid;
      var frames := AnswerInterrogation(con, ca, oa, qoi);
      hide Abs;
      SendReplies(InterrogationReplies(frames));
    }

    method AnswerInterrogation(con: Connection, ca: int, oa: int, qoi: int) returns (frames: seq<Interrogation.Frame>)
      requires Valid()
      ensures Valid() && forall o :: o in Footprint() ==> o in old(Footprint()) || fresh(o)
      ensures Abs() == old(Abs()) && Footprint() == old(Footprint())
      ensures frames == Interrogation.Answer(cfg.limits, con, old(Abs()).image, ca, oa, qoi)
    {
      hide Interrogation.Answer;
      frames := Interrogation.InterrogationHandler(table, cfg.limits, con, ca, oa, qoi);
      commands.Stays();
      table.Stays();
      tracker.Stays();
      south.Stays();
    }

    /** One cycle of the monitoring thread, with its sweep. */
    method MonitorCycle(requestSucceeds: bool, slaveRunning: bool, now: nat)
      requires Valid()
      modifies thread, commands`commands, commands`removed
      ensures Valid() && forall o :: o in Footprint() ==> o in old(Footprint()) || fresh(o)
      ensures Abs() == Step(cfg, old(Abs()), ServerSpec.MonitorCycle(requestSucceeds, slaveRunning, now))
    {
      hide PendingSpec.Step, MonitorLoop.Cycle, Footprint, Abs, Valid;
      ControlServer(requestSucceeds, slaveRunning);
      CheckTimeouts(now);
    }

    /** The first part of a cycle: status request, then start or stop. */
    method ControlServer(requestSucceeds: bool, slaveRunning: bool)
      requires Valid()
      modifies thread
      ensures Valid() && forall o :: o in Footprint() ==> o in old(Footprint()) || fresh(o)
      ensures Abs() == old(Abs()).(loop := MonitorLoop.Cycle(cfg.mode, old(Abs()).loop,
                MonitorLoop.Input(requestSucceeds, SouthStatus.IsSouthConnected(old(Abs()).south), slaveRunning)))
    {
      hide MonitorLoop.Cycle, SouthStatus.IsSouthConnected;
      var connected := south.CheckIfSouthConnected();
      thread.RunCycle(MonitorLoop.Input(requestSucceeds, connected, slaveRunning));
      commands.Stays();
      table.Stays();
      tracker.Stays();
      south.Stays();
      FootprintGrows();
    }

    /** The sweep of the monitoring thread. */
    method CheckTimeouts(now: nat)
      requires Valid()
      modifies commands`commands, commands`removed
      ensures Valid() && forall o :: o in Footprint() ==> o in old(Footprint()) || fresh(o)
      ensures Abs() == old(Abs()).(
                pending := PendingSpec.Step(cfg.gate.execTimeout, old(Abs()).pending, PendingSpec.Sweep(now)))
    {
      hide PendingSpec.Step;
      commands.RemoveTimedOut(now);
      table.Stays();
      tracker.Stays();
      south.Stays();
      FootprintGrows();
    }

    /** One data point in the loop of `send`. */
    method HandleDatapoint(asset: string, point: Datapoint, slaveRunning: bool, now: nat)
      requires Valid()
      modifies Footprint()
      ensures Valid() && forall o :: o in Footprint() ==> o in old(Footprint()) || fresh(o)
      ensures Abs() == Step(cfg, old(Abs()), SouthDatapoint(asset, point, slaveRunning, now))
    {
      CoversParts();
      hide Abs, Footprint, DataObjectStep, SouthStatus.Step, SouthReadings.Collected, Valid;
      match point {
        case SouthEventPoint(status) =>
          HandleSouthEvent(SouthStatus.SouthEvent(asset, status));
        case DataObjectPoint(attributes) =>
          if slaveRunning {
            HandleAttributes(attributes, now);
          }
        case OtherPoint =>
      }
    }

    method HandleSouthEvent(e: SouthStatus.SouthEvent)
      requires Valid()
      modifies south.monitors
      ensures Valid() && forall o :: o in Footprint() ==> o in old(Footprint()) || fresh(o)
      ensures Abs() == old(Abs()).(south := SouthStatus.Step(old(Abs()).south, e))
    {
      hide SouthStatus.Step;
      south.HandleSouthEvent(e);
      commands.Stays();
      table.Stays();
      tracker.Stays();
      FootprintGrows();
    }

    /** A data object in the loop of `send`: its attributes are collected, then it is handled. */
    method HandleAttributes(attributes: seq<SouthReadings.Attribute>, now: nat)
      requires Valid()
      modifies Footprint()
      ensures Valid() && forall o :: o in Footprint() ==> o in old(Footprint()) || fresh(o)
      ensures Abs() == DataObjectStep(cfg, old(Abs()), SouthReadings.Collected(attributes), now)
    {
      hide Abs, Footprint, DataObjectStep, SouthReadings.Collected, Valid;
      var obj := CollectObject(attributes);
      HandleDataObject(obj, now);
    }

    method CollectObject(attributes: seq<SouthReadings.Attribute>) returns (obj: DataObject)
      requires Valid()
      ensures Valid() && Footprint() == old(Footprint()) && Abs() == old(Abs())
      ensures obj == SouthReadings.Collected(attributes)
    {
      hide SouthReadings.Collected;
      obj := SouthReadings.Collect(attributes);
      commands.Stays();
      table.Stays();
      tracker.Stays();
      south.Stays();
    }

    /** What `send` does with a collected data object: feedback for a command, or a value. */
    method HandleDataObject(obj: DataObject, now: nat)
      requires Valid()
      modifies Footprint()
      ensures Valid() && forall o :: o in Footprint() ==> o in old(Footprint()) || fresh(o)
      ensures Abs() == DataObjectStep(cfg, old(Abs()), obj, now)
    {
      CoversParts();
      hide Abs, Footprint, PendingSpec.Step, Messages, ImageStep, FeedbackEvent, Valid;
      if IsFeedback(obj) {
        FeedbackSendsNothing(Abs().image, obj, now);
        HandleFeedback(obj);
      } else {
        HandleValue(obj, now);
      }
    }

    method HandleValue(obj: DataObject, now: nat)
      requires Valid() && !IsFeedback(obj)
      modifies table, table.Cells()
      ensures Valid() && forall o :: o in Footprint() ==> o in old(Footprint()) || fresh(o)
      ensures Abs() == old(Abs()).(
                image := ImageStep(old(Abs()).image, obj, now),
                messages := old(Abs()).messages + Messages(old(Abs()).image, obj, now))
    {
      hide Messages, ImageStep, IsFeedback;
      table.HandleReading(obj, now);
      commands.Stays();
      tracker.Stays();
      south.Stays();
      FootprintGrows();
    }

    method HandleFeedback(obj: DataObject)
      requires Valid() && IsFeedback(obj)
      modifies Footprint()
      ensures Valid() && forall o :: o in Footprint() ==> o in old(Footprint()) || fresh(o)
      ensures Abs() == old(Abs()).(
                pending := PendingSpec.Step(cfg.gate.execTimeout, old(Abs()).pending, FeedbackEvent(obj)))
    {
      CoversParts();
      hide Abs, Footprint, PendingSpec.Step, Valid;
      var key := PendingSpec.Key(obj.typeId, obj.ca, obj.ioa);
      if obj.cot == COT_ACTIVATION_CON {
        TakeActCon(key, obj.negative);
      } else {
        TakeActTerm(key, obj.negative);
      }
    }

    method TakeActCon(key: PendingSpec.Key, negative: bool)
      requires Valid()
      modifies commands, commands.commands
      ensures Valid() && forall o :: o in Footprint() ==> o in old(Footprint()) || fresh(o)
      ensures Abs() == old(Abs()).(
                pending := PendingSpec.Step(cfg.gate.execTimeout, old(Abs()).pending,
                                            PendingSpec.Confirm(key, negative)))
    {
      hide PendingSpec.Step;
      commands.HandleActCon(key, negative);
      table.Stays();
      tracker.Stays();
      south.Stays();
      FootprintGrows();
    }

    method TakeActTerm(key: PendingSpec.Key, negative: bool)
      requires Valid()
      modifies commands, commands.commands
      ensures Valid() && forall o :: o in Footprint() ==> o in old(Footprint()) || fresh(o)
      ensures Abs() == old(Abs()).(
                pending := PendingSpec.Step(cfg.gate.execTimeout, old(Abs()).pending,
                                            PendingSpec.Terminate(key, negative)))
    {
      hide PendingSpec.Step;
      commands.HandleActTerm(key, negative);
      table.Stays();
      tracker.Stays();
      south.Stays();
      FootprintGrows();
    }

    lemma FeedbackSendsNothing(image: Image, obj: DataObject, now: int)
      requires IsFeedback(obj)
      ensures ImageStep(image, obj, now) == image && Messages(image, obj, now) == []
    {
    }

    /** The inner loop of `send`: the data points of one reading, one atomic step each. */
    method HandleDelivery(reading: Delivery)
      requires Valid()
      modifies Footprint()
      ensures Valid() && forall o :: o in Footprint() ==> o in old(Footprint()) || fresh(o)
      ensures Abs() == Run(cfg, old(Abs()), reading.Steps())
    {
      hide Abs, Step, Valid, Footprint;
      var i := 0;
      assert reading.Steps()[..0] == [];
      while i < |reading.points|
        invariant 0 <= i <= |reading.points|
        invariant Valid() && forall o :: o in Footprint() ==> o in old(Footprint()) || fresh(o)
        invariant Abs() == Run(cfg, old(Abs()), reading.Steps()[..i])
      {
        assert reading.Steps()[..i + 1][..i] == reading.Steps()[..i];
        HandleDatapoint(reading.asset, reading.points[i].0, reading.points[i].1, reading.points[i].2);
        i := i + 1;
      }
      assert reading.Steps()[..i] == reading.Steps();
    }

    /** `send`: every reading in turn; their number is returned. */
    method Send(readings: seq<Delivery>) returns (n: nat)
      requires Valid()
      modifies Footprint()
      ensures Valid() && forall o :: o in Footprint() ==> o in old(Footprint()) || fresh(o)
      ensures n == |readings| && Abs() == Run(cfg, old(Abs()), AllSteps(readings))
    {
      hide Abs, Step, Valid, Footprint;
      n := 0;
      assert readings[..0] == [];
      while n < |readings|
        invariant n <= |readings|
        invariant Valid() && forall o :: o in Footprint() ==> o in old(Footprint()) || fresh(o)
        invariant Abs() == Run(cfg, old(Abs()), AllSteps(readings[..n]))
      {
        assert readings[..n + 1][..n] == readings[..n];
        RunAppend(cfg, old(Abs()), AllSteps(readings[..n]), readings[n].Steps());
        HandleDelivery(readings[n]);
        n := n + 1;
      }
      assert readings[..n] == readings;
    }

    /** `removeAllOutstandingCommands`, as the destructor calls it. */
    method Shutdown()
      requires Valid()
      modifies commands`commands, commands`removed
      ensures Valid() && forall o :: o in Footprint() ==> o in old(Footprint()) || fresh(o)
      ensures Abs() == Step(cfg, old(Abs()), ServerSpec.Shutdown)
    {
      hide PendingSpec.Step;
      commands.RemoveAllOutstandingCommands();
      table.Stays();
      tracker.Stays();
      south.Stays();
      FootprintGrows();
    }

    // ---------------------------------------------------------------- any input

    /** Whatever the server is called with. */
    method Handle(input: Input)
      requires Valid()
      modifies Footprint()
      ensures Valid() && forall o :: o in Footprint() ==> o in old(Footprint()) || fresh(o)
      ensures Abs() == Step(cfg, old(Abs()), EventOf(input))
    {
      CoversParts();
      hide Abs, Step, Valid, Footprint;
      match input {
        case Command(con, command, now, queued, result) =>
          AsduHandler(con, command, now, queued, result);
        case Interrogate(con, ca, oa, qoi) =>
          InterrogationHandler(con, ca, oa, qoi);
        case ConnectionChange(con, address, kind) =>
          ConnectionEventHandler(con, address, kind);
        case SouthPoint(asset, point, slaveRunning, now) =>
          HandleDatapoint(asset, point, slaveRunning, now);
        case Cycle(requestSucceeds, slaveRunning, now) =>
          MonitorCycle(requestSucceeds, slaveRunning, now);
        case End =>
          Shutdown();
      }
    }

    /** Any inputs, one after the other. */
    method HandleAll(inputs: seq<Input>)
      requires Valid()
      modifies Footprint()
      ensures Valid() && forall o :: o in Footprint() ==> o in old(Footprint()) || fresh(o)
      ensures Abs() == Run(cfg, old(Abs()), EventsOf(inputs))
    {
      hide Abs, Step, Valid, Footprint;
      var n := 0;
      assert EventsOf(inputs)[..0] == [];
      while n < |inputs|
        invariant 0 <= n <= |inputs|
        invariant Valid() && forall o :: o in Footprint() ==> o in old(Footprint()) || fresh(o)
        invariant Abs() == Run(cfg, old(Abs()), EventsOf(inputs)[..n])
      {
        assert EventsOf(inputs)[..n + 1][..n] == EventsOf(inputs)[..n];
        Handle(inputs[n]);
        n := n + 1;
      }
      assert EventsOf(inputs)[..n] == EventsOf(inputs);
    }
  }

  /** What the server is called with: an event, where a connection is named by its address text. */
  datatype Input =
    | Command(con: Connection, command: CommandGate.Command, now: nat, queued: nat, result: int)
    | Interrogate(con: Connection, ca: int, oa: int, qoi: int)
    | ConnectionChange(con: Connection, address: string, kind: SlotSpec.EventKind)
    | SouthPoint(asset: string, point: Datapoint, slaveRunning: bool, now: nat)
    | Cycle(requestSucceeds: bool, slaveRunning: bool, now: nat)
    | End

  function EventOf(input: Input): Event {
    match input
    case Command(con, command, now, queued, result) => CommandReceived(con, command, now, queued, result)
    case Interrogate(con, ca, oa, qoi) => InterrogationReceived(con, ca, oa, qoi)
    case ConnectionChange(con, address, kind) => ConnectionEvent(con, SlotSpec.PeerOf(address), kind)
    case SouthPoint(asset, point, slaveRunning, now) => SouthDatapoint(asset, point, slaveRunning, now)
    case Cycle(requestSucceeds, slaveRunning, now) => MonitorCycle(requestSucceeds, slaveRunning, now)
    case End => Shutdown
  }

  function EventsOf(inputs: seq<Input>): (es: seq<Event>)
    ensures |es| == |inputs| && forall i :: 0 <= i < |inputs| ==> es[i] == EventOf(inputs[i])
  {
    seq(|inputs|, i requires 0 <= i < |inputs| => EventOf(inputs[i]))
  }

  /** One reading: an asset and its data points, each with what is read from outside when it is
      handled: whether the protocol server runs, and the time. */
  datatype Delivery = Delivery(asset: string, points: seq<(Datapoint, bool, nat)>)
  {
    function Steps(): (steps: seq<Event>)
      ensures |steps| == |points|
      ensures forall i :: 0 <= i < |points| ==>
                steps[i] == SouthDatapoint(asset, points[i].0, points[i].1, points[i].2)
    {
      seq(|points|, i requires 0 <= i < |points| => SouthDatapoint(asset, points[i].0, points[i].1, points[i].2))
    }
  }

  function AllSteps(readings: seq<Delivery>): seq<Event> {
    if readings == [] then [] else AllSteps(readings[..|readings| - 1]) + readings[|readings| - 1].Steps()
  }

  // ---------------------------------------------------------------- configuration and start

  /** The state a configuration starts from. */
  function FirstState(datapoints: seq<seq<ExchangeImport.Entry>>, entries: seq<SlotSpec.GroupEntry>, maxGroups: nat,
                      assets: seq<string>): State
  {
    State(PendingSpec.EMPTY, ExchangeImport.Imported(datapoints),
          SlotSpec.Started(SlotSpec.GroupsOf(entries), maxGroups),
          SouthStatus.MonitorsOf(assets), MonitorLoop.INITIAL, [], [], [])
  }

  /** What is asked of the first state of a run holds after every configuration. */
  lemma FirstStateIsInitial(datapoints: seq<seq<ExchangeImport.Entry>>, entries: seq<SlotSpec.GroupEntry>,
                            maxGroups: nat, assets: seq<string>)
    ensures IsInitial(FirstState(datapoints, entries, maxGroups, assets))
  {
    hide ExchangeImport.Imported, SlotSpec.Started;
    ExchangeImport.ImportedTable(datapoints);
    SlotAudits.StartIsSound(entries, maxGroups);
  }

  /** What a configuration makes of the first state: every cell of the table is that of its entries, the
      slots are those of its groups with one first audit for each path, and there is one monitor for
      each asset; nothing else has happened. */
  lemma FirstStateInWords(datapoints: seq<seq<ExchangeImport.Entry>>, entries: seq<SlotSpec.GroupEntry>,
                          maxGroups: nat, assets: seq<string>, ca: int, ioa: int)
    ensures var s, groups := FirstState(datapoints, entries, maxGroups, assets), SlotSpec.GroupsOf(entries);
            && ImportTheorems.IsCellOf(PointAt(s.image, ca, ioa), datapoints, ca, ioa)
            && EventTheorems.IsStart(s.slots, groups, maxGroups)
            && |s.south| == |assets|
            && (forall i :: 0 <= i < |assets| ==>
                  s.south[i].asset == assets[i] && s.south[i].connx == SouthStatus.NotConnected)
            && s.pending.pending == [] && s.pending.arrived == [] && s.pending.sent == []
            && s.loop.actions == [] && !s.loop.serverRunning && s.messages == [] && s.replies == []
            && s.operations == []
  {
    hide ExchangeImport.Imported, SlotSpec.Started, SlotSpec.GroupsOf, ImportTheorems.IsCellOf, EventTheorems.IsStart;
    ImportTheorems.CellInWords(datapoints, ca, ioa);
    EventTheorems.StartInWords(SlotSpec.GroupsOf(entries), maxGroups);
  }

  /** `setJsonConfig` and `startSlave`: the imports, the parts, the first audits. The server is then in
      a state that runs start from, and made of new objects only. */
  method StartServer(cfg: Config, datapoints: seq<seq<ExchangeImport.Entry>>, entries: seq<SlotSpec.GroupEntry>,
                     maxGroups: nat, assets: seq<string>) returns (server: Iec104Server)
    ensures fresh(server) && fresh(server.Footprint()) && server.Valid() && server.cfg == cfg
    ensures server.tracker.maxOpenConnections == SlotSpec.TotalSlots(SlotSpec.GroupsOf(entries))
    ensures server.Abs() == FirstState(datapoints, entries, maxGroups, assets) && IsInitial(server.Abs())
  {
    hide IsInitial;
    var table, tracker := ImportParts(datapoints, entries, maxGroups);
    server := Assemble(cfg, table, tracker, assets);
    FirstStateIsInitial(datapoints, entries, maxGroups, assets);
  }

  method ImportParts(datapoints: seq<seq<ExchangeImport.Entry>>, entries: seq<SlotSpec.GroupEntry>, maxGroups: nat)
    returns (table: ExchangeTable.PointTable, tracker: RedundancyGroups.ConnectionTracker)
    ensures fresh(table) && fresh(table.Cells()) && table.Valid() && table.sent == []
    ensures table.Abs() == ExchangeImport.Imported(datapoints)
    ensures fresh(tracker) && fresh(tracker.Slots()) && tracker.Valid()
    ensures tracker.Abs() == SlotSpec.Started(SlotSpec.GroupsOf(entries), maxGroups)
    ensures tracker.maxOpenConnections == SlotSpec.TotalSlots(SlotSpec.GroupsOf(entries))
  {
    hide ExchangeImport.Imported, SlotSpec.Started, SlotSpec.GroupsOf, SlotSpec.TotalSlots;
    tracker := StartTracker(entries, maxGroups);
    label imported:
    table := ExchangeImport.ImportExchangeConfig(datapoints);
    tracker.Stays@imported();
  }

  /** The server from its table and its connections; the other parts are new. */
  method Assemble(cfg: Config, table: ExchangeTable.PointTable, tracker: RedundancyGroups.ConnectionTracker,
                  assets: seq<string>) returns (server: Iec104Server)
    requires table.Valid() && tracker.Valid()
    ensures fresh(server) && server.Valid() && server.cfg == cfg && server.tracker == tracker
    ensures tracker.maxOpenConnections == old(tracker.maxOpenConnections)
    ensures forall o :: o in server.Footprint() ==>
              o == table || o == tracker || o in old(table.Cells()) || o in old(tracker.Slots()) || fresh(o)
    ensures server.Abs() == State(PendingSpec.EMPTY, old(table.Abs()), old(tracker.Abs()),
                                  SouthStatus.MonitorsOf(assets), MonitorLoop.INITIAL, old(table.sent), [], [])
  {
    hide ExchangeTable.PointTable.Abs, ExchangeTable.PointTable.Valid, RedundancyGroups.ConnectionTracker.Abs,
         RedundancyGroups.ConnectionTracker.Valid, OutstandingCommands.CommandTable.Abs,
         OutstandingCommands.CommandTable.Valid, SouthStatus.SouthMonitors.Abs;
    var south := SouthStatus.ImportMonitors(assets);
    label monitored:
    var commands, thread := NewParts(cfg);
    label complete:
    table.Stays();
    tracker.Stays();
    server := new Iec104Server(cfg, commands, table, tracker, south, thread);
    table.Stays();
    tracker.Stays();
    south.Stays@monitored();
    commands.Stays@complete();
  }

  method NewParts(cfg: Config)
    returns (commands: OutstandingCommands.CommandTable, thread: MonitorLoop.MonitoringThread)
    ensures fresh(commands) && commands.Valid() && commands.commands == [] && commands.Abs() == PendingSpec.EMPTY
    ensures commands.execTimeout == cfg.gate.execTimeout
    ensures fresh(thread) && thread.Abs() == MonitorLoop.INITIAL && thread.mode == cfg.mode
  {
    commands := new OutstandingCommands.CommandTable(cfg.gate.execTimeout);
    thread := new MonitorLoop.MonitoringThread(cfg.mode);
  }

  /** From a configuration through any inputs: what the objects do is a run of the specification, from
      a state that the theorems about runs start from. */
  method RunServer(cfg: Config, datapoints: seq<seq<ExchangeImport.Entry>>, entries: seq<SlotSpec.GroupEntry>,
                   maxGroups: nat, assets: seq<string>, inputs: seq<Input>) returns (server: Iec104Server)
    ensures fresh(server) && fresh(server.Footprint()) && server.Valid()
    ensures server.Abs() == Run(cfg, FirstState(datapoints, entries, maxGroups, assets), EventsOf(inputs))
    ensures IsInitial(FirstState(datapoints, entries, maxGroups, assets))
  {
    hide FirstState, IsInitial, Step;
    server := StartServer(cfg, datapoints, entries, maxGroups, assets);
    server.HandleAll(inputs);
  }

  method StartTracker(entries: seq<SlotSpec.GroupEntry>, maxGroups: nat)
    returns (tracker: RedundancyGroups.ConnectionTracker)
    ensures fresh(tracker) && fresh(tracker.groups) && fresh(tracker.Slots()) && tracker.Valid()
    ensures tracker.Abs() == SlotSpec.Started(SlotSpec.GroupsOf(entries), maxGroups)
    ensures tracker.maxOpenConnections == SlotSpec.TotalSlots(SlotSpec.GroupsOf(entries))
  {
    hide SlotSpec.Started, SlotSpec.GroupsOf, RedundancyGroups.NoSlotTwice, SlotSpec.TotalSlots;
    var groups := RedundancyGroups.ImportGroups(entries);
    tracker := new RedundancyGroups.ConnectionTracker(groups);
    assert tracker.View() == SlotSpec.GroupsOf(entries);
    tracker.SendInitialAudits(maxGroups);
  }
}
