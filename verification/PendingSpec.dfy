/** What the table of outstanding commands does, step by step, on values: the specification that
    the methods of `OutstandingCommands` are proved against. */
module PendingSpec {
  import opened Machine

  /** A connection handle of the protocol library. */
  type Connection = nat

  /** What feedback from the south side is matched on. */
  datatype Key = Key(typeId: int, ca: int, ioa: int)

  /** The numeric state of a command: 0, 1 and 2. */
  datatype Phase = Completed | AwaitCon | AwaitTerm

  /** One outstanding command. `id` is its place in the arrival log; it stands for the identity
      of the command object. Times are milliseconds. */
  datatype Command = Command(id: nat, con: Connection, key: Key, isSelect: bool,
                             received: nat, deadline: nat, phase: Phase)
  {
    /** The part of a command that nothing changes after it was created. */
    predicate SameOrigin(c: Command) {
      id == c.id && con == c.con && key == c.key && isSelect == c.isSelect && received == c.received
    }
  }

  datatype FrameKind = ActCon | ActTerm

  /** A confirmation or termination sent for command `id` on connection `con`. */
  datatype Frame = Frame(con: Connection, id: nat, key: Key, kind: FrameKind, negative: bool)

  datatype Cause = SelectConfirmed | Terminated | TimedOut | ConnectionLost | ShutDown

  datatype Removal = Removal(id: nat, cause: Cause)

  /** The table (`pending`) and three logs: every command that arrived, every removal, every frame. */
  datatype State = State(pending: seq<Command>, arrived: seq<Command>, removed: seq<Removal>, sent: seq<Frame>)

  const EMPTY := State([], [], [], [])

  datatype Event =
    | Arrive(con: Connection, key: Key, isSelect: bool, now: nat)
    | Confirm(key: Key, negative: bool)
    | Terminate(key: Key, negative: bool)
    | Sweep(now: nat)
    | Lose(con: Connection)
    | RemoveAll

  /** `m_nextTimeout`: an `int` product added to an unsigned 64-bit number. */
  function NextTimeout(received: nat, execTimeout: int): nat {
    (received + ToInt32(execTimeout * 1000)) % TWO_64
  }

  function NewCommand(id: nat, con: Connection, key: Key, isSelect: bool, now: nat, execTimeout: int): Command {
    Command(id, con, key, isSelect, now, NextTimeout(now, execTimeout), AwaitCon)
  }

  /** What sending an ACT-CON leaves of a command. */
  function Confirmed(c: Command, negative: bool): Command {
    if !negative && !c.isSelect then c.(phase := AwaitTerm)
    else c.(deadline := 0, phase := Completed)
  }

  /** Position of the oldest command with this key, or `|p|`. */
  function FirstMatch(p: seq<Command>, key: Key): (i: nat)
    ensures i <= |p|
    ensures i < |p| ==> p[i].key == key
    ensures forall j :: 0 <= j < i ==> p[j].key != key
  {
    if p == [] then 0
    else if p[0].key == key then 0
    else 1 + FirstMatch(p[1..], key)
  }

  function Without<T>(s: seq<T>, i: nat): seq<T>
    requires i < |s|
  {
    s[..i] + s[i + 1..]
  }

  /** Whether a removing event takes command `c` out of the table. */
  predicate Drops(e: Event, c: Command) {
    match e
    case Sweep(now) => now > c.deadline
    case Lose(con) => c.con == con
    case RemoveAll => true
    case _ => false
  }

  function CauseOf(e: Event): Cause {
    match e
    case Sweep(_) => TimedOut
    case Lose(_) => ConnectionLost
    case Confirm(_, _) => SelectConfirmed
    case Terminate(_, _) => Terminated
    case _ => ShutDown
  }

  /** What a removing event leaves in the table, in order. */
  function Kept(p: seq<Command>, e: Event): seq<Command> {
    if p == [] then []
    else Kept(p[..|p| - 1], e) + (if Drops(e, p[|p| - 1]) then [] else [p[|p| - 1]])
  }

  /** What a removing event takes out of the table, in order. */
  function Dropped(p: seq<Command>, e: Event): seq<Removal> {
    if p == [] then []
    else
      var c := p[|p| - 1];
      Dropped(p[..|p| - 1], e) + (if Drops(e, c) then [Removal(c.id, CauseOf(e))] else [])
  }

  /** One atomic step of the table. */
  function Step(execTimeout: int, s: State, e: Event): State {
    match e
    case Arrive(con, key, isSelect, now) =>
      var c := NewCommand(|s.arrived|, con, key, isSelect, now, execTimeout);
      s.(pending := s.pending + [c], arrived := s.arrived + [c])
    case Confirm(key, negative) =>
      var i := FirstMatch(s.pending, key);
      if i == |s.pending| then s
      else
        var c := s.pending[i];
        var sent := s.sent + [Frame(c.con, c.id, key, ActCon, negative)];
        if c.isSelect then
          State(Without(s.pending, i), s.arrived, s.removed + [Removal(c.id, SelectConfirmed)], sent)
        else
          s.(pending := s.pending[i := Confirmed(c, negative)], sent := sent)
    case Terminate(key, negative) =>
      var i := FirstMatch(s.pending, key);
      if i == |s.pending| then s
      else
        var c := s.pending[i];
        State(Without(s.pending, i), s.arrived, s.removed + [Removal(c.id, Terminated)],
              s.sent + [Frame(c.con, c.id, key, ActTerm, negative)])
    case _ =>
      s.(pending := Kept(s.pending, e), removed := s.removed + Dropped(s.pending, e))
  }

  /** A whole run: the steps in order. */
  function Run(execTimeout: int, s: State, es: seq<Event>): State {
    if es == [] then s
    else Step(execTimeout, Run(execTimeout, s, es[..|es| - 1]), es[|es| - 1])
  }
}
