/** The cascade of checks between a received command and the south side. */
module CommandGate {
  import opened Machine
  import opened Protocol
  import opened Points
  import Terms

  /** The settings that commands depend on; timeouts in seconds. */
  datatype Settings = Settings(allowedCommands: int, filterOriginators: bool, allowedOriginators: set<int>,
                               recvTimeout: int, execTimeout: int)

  predicate IsOriginatorAllowed(s: Settings, oa: int) {
    s.filterOriginators ==> oa in s.allowedOriginators
  }

  predicate AllowCmdWithTime(s: Settings) {
    s.allowedCommands == 1 || s.allowedCommands == 2
  }

  predicate AllowCmdWithoutTime(s: Settings) {
    s.allowedCommands == 0 || s.allowedCommands == 2
  }

  /** The object of a command; a time tag in milliseconds where the type has one. */
  datatype CommandObject = CommandObject(ioa: int, isSelect: bool, timeTag: Option<nat>)

  /** A received message; `object` is absent if the library cannot decode it. */
  datatype Command = Command(typeId: int, cot: int, ca: int, oa: int, io: Option<CommandObject>)

  // ---------------------------------------------------------------- timestamps

  function Distance(now: nat, t: nat): nat {
    if t > now then t - now else now - t
  }

  /** `checkTimestamp`: the distance is cut to an `int`, and the limit is an `int` product. */
  predicate CheckTimestamp(recvTimeout: int, t: nat, now: nat) {
    var timeDiff := ToInt32(Distance(now, t));
    !(timeDiff > ToInt32(recvTimeout * 1000) || timeDiff < 0)
  }

  predicate CheckIfCmdTimeIsValid(s: Settings, typeId: int, io: CommandObject, now: nat) {
    s.recvTimeout == 0
    || (IsCommandWithTimestamp(typeId) && io.timeTag.Some? && CheckTimestamp(s.recvTimeout, io.timeTag.value, now))
  }

  /** The window as computed: the distance modulo 2^32, on either side of the clock, is within the
      limit. */
  lemma TimestampWindow(T: int, t: nat, now: nat)
    requires 0 < T && 1000 * T < TWO_31
    ensures CheckTimestamp(T, t, now) <==> Terms.IsWithin(1000 * T, t, now)
  {
  }

  /** The window as intended: the computed one agrees with it for every distance below 2^32 ms, and
      beyond that exactly where the reduced distance is not within the limit by accident. */
  lemma TimestampWindowIsIdealIff(T: int, t: nat, now: nat)
    requires 0 < T && 1000 * T < TWO_31
    ensures (CheckTimestamp(T, t, now) <==> -1000 * T <= now - t <= 1000 * T) <==>
              -TWO_32 < now - t < TWO_32 || !Terms.IsWithin(1000 * T, t, now)
  {
    TimestampWindow(T, t, now);
  }

  /** The window for every timeout: its limit wraps, and with a limit that wraps below zero no command
      is ever accepted. */
  lemma WrappedWindow(T: int, t: nat, now: nat)
    ensures CheckTimestamp(T, t, now) <==> Terms.IsWithin(ToInt32(1000 * T), t, now)
    ensures ToInt32(1000 * T) < 0 ==> !CheckTimestamp(T, t, now)
  {
  }

  /** The window is the intended one for all distances below 2^32 ms if and only if the limit does not
      wrap. */
  lemma WindowIsIdealIff(T: int)
    requires 0 < T < TWO_31
    ensures (forall t: nat, now: nat :: -TWO_32 < now - t < TWO_32 ==>
               (CheckTimestamp(T, t, now) <==> -1000 * T <= now - t <= 1000 * T))
       <==> 1000 * T < TWO_31
  {
    if 1000 * T < TWO_31 {
      forall t: nat, now: nat | -TWO_32 < now - t < TWO_32
        ensures CheckTimestamp(T, t, now) <==> -1000 * T <= now - t <= 1000 * T
      {
        TimestampWindow(T, t, now);
      }
    } else {
      var limit := ToInt32(1000 * T);
      var late := if limit < 0 then 0 else limit + 1;
      WrappedWindow(T, 0, late);
      assert !CheckTimestamp(T, 0, late);
    }
  }

  /** A command 2^32 ms old is accepted. */
  lemma FiftyDaysOldIsAccepted(now: nat, T: int)
    requires 0 < T && 1000 * T < TWO_31 && now >= TWO_32
    ensures CheckTimestamp(T, now - TWO_32, now)
  {
    TimestampWindow(T, now - TWO_32, now);
  }

  // ---------------------------------------------------------------- the cascade

  datatype Verdict = Reject(cot: int) | Forward

  /** `validateCommand` up to the call of `forwardCommand`, over the row its lookup yields. */
  function Judge(s: Settings, southConnected: bool, row: map<int, Option<Point>>, c: Command, now: nat): (v: Verdict)
    ensures v.Forward? ==> c.io.Some?
  {
    if !southConnected then Reject(COT_ACTIVATION_CON)
    else if c.cot != COT_ACTIVATION then Reject(COT_UNKNOWN_COT)
    else if c.io.None? then Reject(COT_UNKNOWN_TYPE_ID)
    else if row == map[] then Reject(COT_UNKNOWN_CA)
    else if !IsOriginatorAllowed(s, c.oa) then Reject(COT_ACTIVATION_CON)
    else
      var cell := if c.io.value.ioa in row then row[c.io.value.ioa] else None;
      if cell.None? then Reject(COT_UNKNOWN_IOA)
      else if !IsMatchingCommand(cell.value.isCommand, cell.value.dataType, c.typeId) then Reject(COT_UNKNOWN_TYPE_ID)
      else if IsCommandWithTimestamp(c.typeId) then
        if !AllowCmdWithTime(s) then Reject(COT_UNKNOWN_TYPE_ID)
        else if !CheckIfCmdTimeIsValid(s, c.typeId, c.io.value, now) then Reject(COT_ACTIVATION_CON)
        else Forward
      else if !AllowCmdWithoutTime(s) then Reject(COT_UNKNOWN_TYPE_ID)
      else Forward
  }

  // ---------------------------------------------------------------- what the settings mean

  /** The originator is on the list, where there is one. */
  predicate OriginatorPasses(s: Settings, oa: int) {
    !s.filterOriginators || oa in s.allowedOriginators
  }

  /** Commands of this kind are allowed: 0 means without time tag, 1 with, 2 both. */
  predicate KindPasses(s: Settings, typeId: int) {
    if Terms.IsTimedCommandType(typeId) then s.allowedCommands in {1, 2} else s.allowedCommands in {0, 2}
  }

  /** A time tag is recent, where the type has one and the check is not switched off. */
  predicate TimePasses(s: Settings, c: Command, now: nat)
    requires c.io.Some?
  {
    Terms.IsTimedCommandType(c.typeId) && s.recvTimeout != 0 ==>
      c.io.value.timeTag.Some? && Terms.IsWithin(ToInt32(1000 * s.recvTimeout), c.io.value.timeTag.value, now)
  }

  /** The point a command is addressed to. */
  ghost predicate IsAddressed(row: map<int, Option<Point>>, c: Command, p: Point) {
    c.io.Some? && c.io.value.ioa in row && row[c.io.value.ioa] == Some(p)
  }

  /** It is a command point that the type fits. */
  ghost predicate Fits(row: map<int, Option<Point>>, c: Command) {
    exists p :: IsAddressed(row, c, p) && p.isCommand && Terms.CommandFits(p.dataType, c.typeId)
  }

  lemma PolicyInWords(s: Settings, c: Command, now: nat)
    ensures IsOriginatorAllowed(s, c.oa) <==> OriginatorPasses(s, c.oa)
    ensures (if IsCommandWithTimestamp(c.typeId) then AllowCmdWithTime(s) else AllowCmdWithoutTime(s))
       <==> KindPasses(s, c.typeId)
    ensures c.io.Some? ==>
              (IsCommandWithTimestamp(c.typeId) ==> CheckIfCmdTimeIsValid(s, c.typeId, c.io.value, now))
              == TimePasses(s, c, now)
  {
    Terms.TypesByNumber(c.typeId, SP, true);
    if c.io.Some? && c.io.value.timeTag.Some? {
      WrappedWindow(s.recvTimeout, c.io.value.timeTag.value, now);
    }
    hide CheckTimestamp, Terms.IsWithin;
  }

  lemma PointInWords(row: map<int, Option<Point>>, c: Command)
    requires c.io.Some?
    ensures var cell := if c.io.value.ioa in row then row[c.io.value.ioa] else None;
            && (cell.Some? <==> exists p :: IsAddressed(row, c, p))
            && (cell.Some? && IsMatchingCommand(cell.value.isCommand, cell.value.dataType, c.typeId) <==> Fits(row, c))
  {
    if c.io.value.ioa in row && row[c.io.value.ioa].Some? {
      var p := row[c.io.value.ioa].value;
      Terms.TypesByNumber(c.typeId, p.dataType, p.isCommand);
      assert IsAddressed(row, c, p);
    }
    hide IsMatchingCommand, Terms.CommandFits;
  }

  /** Gate exactness: what a supported command needs to be forwarded, all of it and no more. */
  lemma ForwardedIff(s: Settings, southConnected: bool, row: map<int, Option<Point>>, c: Command, now: nat)
    ensures Judge(s, southConnected, row, c, now) == Forward <==>
              && southConnected && c.cot == 6 && c.io.Some?
              && OriginatorPasses(s, c.oa) && Fits(row, c) && KindPasses(s, c.typeId) && TimePasses(s, c, now)
  {
    PolicyInWords(s, c, now);
    if c.io.Some? {
      PointInWords(row, c);
    }
    hide IsOriginatorAllowed, AllowCmdWithTime, AllowCmdWithoutTime, CheckIfCmdTimeIsValid, IsMatchingCommand,
         IsCommandWithTimestamp, OriginatorPasses, KindPasses, TimePasses, Fits, IsAddressed;
  }

  /** When an answer to a refused command gives this cause, for each of the five. */
  ghost predicate CauseIs(s: Settings, southConnected: bool, row: map<int, Option<Point>>, c: Command, now: nat,
                          cot: int)
  {
    var readable := southConnected && c.cot == 6 && c.io.Some?;
    var admitted := readable && row != map[] && OriginatorPasses(s, c.oa);
    && (cot == 45 <==> southConnected && c.cot != 6)
    && (cot == 46 <==> readable && row == map[])
    && (cot == 47 <==> admitted && !exists p :: IsAddressed(row, c, p))
    && (cot == 44 <==>
          || (southConnected && c.cot == 6 && c.io.None?)
          || (admitted && (exists p :: IsAddressed(row, c, p)) && !(Fits(row, c) && KindPasses(s, c.typeId))))
    && (cot == 7 <==>
          || !southConnected
          || (readable && row != map[] && !OriginatorPasses(s, c.oa))
          || (admitted && Fits(row, c) && KindPasses(s, c.typeId)))
  }

  /** What a rejection says, cause by cause. The negative confirmation, 7, stands for a south side that
      is not connected, an originator that is not allowed and a time tag that is not recent; and for an
      operation that fails after all checks are passed. */
  lemma RejectedIff(s: Settings, southConnected: bool, row: map<int, Option<Point>>, c: Command, now: nat)
    ensures var verdict := Judge(s, southConnected, row, c, now);
            CauseIs(s, southConnected, row, c, now, if verdict.Reject? then verdict.cot else 7)
  {
    PolicyInWords(s, c, now);
    if c.io.Some? {
      PointInWords(row, c);
    }
    hide IsOriginatorAllowed, AllowCmdWithTime, AllowCmdWithoutTime, CheckIfCmdTimeIsValid, IsMatchingCommand,
         IsCommandWithTimestamp, OriginatorPasses, KindPasses, TimePasses, Fits;
  }
}
