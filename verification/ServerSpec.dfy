/** The whole server as one state machine: its parts side by side, and one atomic step per handler
    call or locked region, in any interleaving. */
module ServerSpec {
  import opened Machine
  import opened Protocol
  import opened Points
  import opened ProcessImage
  import CommandGate
  import Interrogation
  import MonitorLoop
  import Packing
  import PendingSpec
  import SlotAudits
  import SlotSpec
  import SlotTracking
  import SouthReadings
  import SouthStatus

  type Connection = PendingSpec.Connection

  datatype Config = Config(gate: CommandGate.Settings, limits: Packing.Limits, mode: MonitorLoop.Mode)

  /** A frame sent at once, in answer to what was received. */
  datatype Reply =
    | CommandReply(con: Connection, typeId: int, ca: int, cot: int, negative: bool)
    | InterrogationReply(frame: Interrogation.Frame)

  /** A command handed to the south side. */
  datatype Operation = Operation(con: Connection, typeId: int, ca: int, ioa: int)

  /** One data point of a reading. */
  datatype Datapoint =
    | SouthEventPoint(status: seq<SouthStatus.Attribute>)
    | DataObjectPoint(attributes: seq<SouthReadings.Attribute>)
    | OtherPoint

  datatype State = State(pending: PendingSpec.State, image: Image, slots: SlotSpec.State,
                         south: seq<SouthStatus.Monitor>, loop: MonitorLoop.State,
                         messages: seq<Message>, replies: seq<Reply>, operations: seq<Operation>)

  /** The atomic steps, with what each reads from outside: times, the result of the operation, and
      whether the library reports the protocol server as running. */
  datatype Event =
    | CommandReceived(con: Connection, command: CommandGate.Command, now: nat, queued: nat, result: int)
    | InterrogationReceived(con: Connection, ca: int, oa: int, qoi: int)
    | ConnectionEvent(con: Connection, peer: SlotSpec.Peer, kind: SlotSpec.EventKind)
    | SouthDatapoint(asset: string, point: Datapoint, slaveRunning: bool, now: nat)
    | MonitorCycle(requestSucceeds: bool, slaveRunning: bool, now: nat)
    | Shutdown

  predicate ReachesTable(s: State, c: CommandGate.Command) {
    SouthStatus.IsSouthConnected(s.south) && c.cot == COT_ACTIVATION && c.io.Some?
  }

  /** The verdict on a command, over the row that the lookup yields. */
  function VerdictOn(cfg: Config, s: State, c: CommandGate.Command, now: nat): CommandGate.Verdict {
    CommandGate.Judge(cfg.gate, SouthStatus.IsSouthConnected(s.south), TouchRow(s.image, c.ca)[c.ca], c, now)
  }

  function KeyOf(c: CommandGate.Command): PendingSpec.Key
    requires c.io.Some?
  {
    PendingSpec.Key(c.typeId, c.ca, c.io.value.ioa)
  }

  /** The data object a step takes from the south side, if the protocol server runs. */
  function ObjectOf(e: Event): (obj: Option<DataObject>)
    ensures obj.Some? ==> e.SouthDatapoint?
  {
    if e.SouthDatapoint? && e.point.DataObjectPoint? && e.slaveRunning
    then Some(SouthReadings.Collected(e.point.attributes)) else None
  }

  /** Feedback addresses a command by its type and addresses. */
  function FeedbackEvent(obj: DataObject): PendingSpec.Event {
    var key := PendingSpec.Key(obj.typeId, obj.ca, obj.ioa);
    if obj.cot == COT_ACTIVATION_CON then PendingSpec.Confirm(key, obj.negative)
    else PendingSpec.Terminate(key, obj.negative)
  }

  /** What a step means for the table of outstanding commands: at most one of its steps. */
  function PendingEventOf(cfg: Config, s: State, e: Event): Option<PendingSpec.Event> {
    match e
    case CommandReceived(con, c, now, queued, _) =>
      if IsSupportedCommandType(c.typeId) && VerdictOn(cfg, s, c, now) == CommandGate.Forward then
        Some(PendingSpec.Arrive(con, KeyOf(c), HasSelectBit(c.typeId) && c.io.value.isSelect, queued))
      else None
    case ConnectionEvent(con, peer, kind) =>
      if SlotSpec.CleansUp(s.slots.groups, peer, kind) then Some(PendingSpec.Lose(con)) else None
    case SouthDatapoint(_, _, _, _) =>
      var obj := ObjectOf(e);
      if obj.Some? && IsFeedback(obj.value) then Some(FeedbackEvent(obj.value)) else None
    case MonitorCycle(_, _, now) => Some(PendingSpec.Sweep(now))
    case Shutdown => Some(PendingSpec.RemoveAll)
    case InterrogationReceived(_, _, _, _) => None
  }

  function PendingStep(cfg: Config, s: State, e: Event): PendingSpec.State {
    var pe := PendingEventOf(cfg, s, e);
    if pe.Some? then PendingSpec.Step(cfg.gate.execTimeout, s.pending, pe.value) else s.pending
  }

  function InterrogationReplies(frames: seq<Interrogation.Frame>): (replies: seq<Reply>)
    ensures |replies| == |frames|
    ensures forall i :: 0 <= i < |frames| ==> replies[i] == InterrogationReply(frames[i])
  {
    seq(|frames|, i requires 0 <= i < |frames| => InterrogationReply(frames[i]))
  }

  /** `asduHandler`. */
  function CommandStep(cfg: Config, s: State, e: Event): State
    requires e.CommandReceived?
  {
    var c := e.command;
    if !IsSupportedCommandType(c.typeId) then s
    else
      var looked := s.(image := if ReachesTable(s, c) then TouchRow(s.image, c.ca) else s.image);
      match VerdictOn(cfg, s, c, e.now)
      case Reject(cot) => looked.(replies := s.replies + [CommandReply(e.con, c.typeId, c.ca, cot, true)])
      case Forward =>
        looked.(pending := PendingStep(cfg, s, e),
                operations := s.operations + [Operation(e.con, c.typeId, c.ca, c.io.value.ioa)],
                replies := if e.result > 0 then s.replies
                           else s.replies + [CommandReply(e.con, c.typeId, c.ca, COT_ACTIVATION_CON, true)])
  }

  /** What `send` does with a collected data object: feedback for a command, or a value. */
  function DataObjectStep(cfg: Config, s: State, obj: DataObject, now: nat): State {
    s.(pending := if IsFeedback(obj) then PendingSpec.Step(cfg.gate.execTimeout, s.pending, FeedbackEvent(obj))
                  else s.pending,
       image := ImageStep(s.image, obj, now),
       messages := s.messages + Messages(s.image, obj, now))
  }

  /** One data point in the loop of `send`. */
  function DatapointStep(cfg: Config, s: State, e: Event): State
    requires e.SouthDatapoint?
  {
    match e.point
    case SouthEventPoint(status) =>
      s.(south := SouthStatus.Step(s.south, SouthStatus.SouthEvent(e.asset, status)))
    case DataObjectPoint(_) =>
      var obj := ObjectOf(e);
      if obj.None? then s
      else DataObjectStep(cfg, s, obj.value, e.now)
    case OtherPoint => s
  }

  function CycleInput(s: State, e: Event): MonitorLoop.Input
    requires e.MonitorCycle?
  {
    MonitorLoop.Input(e.requestSucceeds, SouthStatus.IsSouthConnected(s.south), e.slaveRunning)
  }

  function Step(cfg: Config, s: State, e: Event): State {
    match e
    case CommandReceived(_, _, _, _, _) => CommandStep(cfg, s, e)
    case InterrogationReceived(con, ca, oa, qoi) =>
      s.(replies := s.replies + InterrogationReplies(Interrogation.Answer(cfg.limits, con, s.image, ca, oa, qoi)))
    case ConnectionEvent(con, peer, kind) =>
      s.(slots := SlotSpec.Step(s.slots, peer, kind), pending := PendingStep(cfg, s, e))
    case SouthDatapoint(_, _, _, _) => DatapointStep(cfg, s, e)
    case MonitorCycle(_, _, _) =>
      s.(loop := MonitorLoop.Cycle(cfg.mode, s.loop, CycleInput(s, e)), pending := PendingStep(cfg, s, e))
    case Shutdown =>
      s.(pending := PendingStep(cfg, s, e))
  }

  function Run(cfg: Config, s: State, es: seq<Event>): State {
    if es == [] then s
    else Step(cfg, Run(cfg, s, es[..|es| - 1]), es[|es| - 1])
  }

  lemma RunNext(cfg: Config, s: State, es: seq<Event>, e: Event)
    ensures Run(cfg, s, es + [e]) == Step(cfg, Run(cfg, s, es), e) && Run(cfg, s, []) == s
  {
    hide Step;
    assert (es + [e])[..|es|] == es;
  }

  lemma {:induction false} RunAppend(cfg: Config, s: State, a: seq<Event>, b: seq<Event>)
    ensures Run(cfg, s, a + b) == Run(cfg, Run(cfg, s, a), b)
  {
    hide Step;
    if b == [] {
      assert a + b == a;
    } else {
      assert (a + b)[..|a + b| - 1] == a + b[..|b| - 1];
      RunAppend(cfg, s, a, b[..|b| - 1]);
    }
  }

  /** The server after its start: nothing pending, slots free, south not connected, and the audit
      "disconnected" sent. */
  ghost predicate IsInitial(s: State) {
    && s.pending == PendingSpec.EMPTY
    && Pristine(s.image)
    && SlotTracking.IsFresh(s.slots.groups) && SlotAudits.NoEmptyAddress(s.slots.groups)
    && SlotAudits.AuditInv(s.slots)
    && s.slots.lastGlobal == Some(SlotSpec.Disconnected)
    && (forall m :: m in s.south ==> m.connx == SouthStatus.NotConnected)
    && s.loop == MonitorLoop.INITIAL
    && s.messages == [] && s.replies == [] && s.operations == []
  }
}
