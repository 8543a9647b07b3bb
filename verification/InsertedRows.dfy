/** What lookups that insert do to the table over whole runs, read off the events: which rows a run
    adds, which requests notice, and that they do. */
module InsertedRows {
  import opened Machine
  import opened Protocol
  import opened Points
  import opened ProcessImage
  import opened ServerSpec
  import opened ServerTheorems
  import CommandGate
  import GiGroups
  import Interrogation
  import InterrogationTheorems
  import Packing
  import ReportTheorems
  import SouthReadings
  import Terms
  import SouthStatus

  // ---------------------------------------------------------------- the rows of a run

  /** Whether the latest status received for some monitored asset is "started". */
  ghost predicate SouthWasStarted(s: State, es: seq<Event>) {
    exists m :: m in s.south && SouthStatus.LastSays(m.asset, SouthHistory(es), "started")
  }

  /** The row an event looks up: that of a complete reading taken while the protocol server runs, or
      of a supported command that gets as far as the table. */
  ghost function LookedUp(s: State, front: seq<Event>, e: Event): set<int> {
    if ObjectOf(e).Some? then
      if !IsFeedback(ObjectOf(e).value) && IsComplete(ObjectOf(e).value) then {ObjectOf(e).value.ca} else {}
    else if e.CommandReceived? && IsSupportedCommandType(e.command.typeId) && e.command.cot == COT_ACTIVATION
            && e.command.io.Some? && SouthWasStarted(s, front)
    then {e.command.ca}
    else {}
  }

  ghost function LookedUpIn(s: State, es: seq<Event>): set<int> {
    if es == [] then {}
    else LookedUpIn(s, es[..|es| - 1]) + LookedUp(s, es[..|es| - 1], es[|es| - 1])
  }

  lemma SouthIsConnectedIff(cfg: Config, s: State, es: seq<Event>)
    requires IsInitial(s)
    ensures SouthStatus.IsSouthConnected(Run(cfg, s, es).south) <==> SouthWasStarted(s, es)
  {
    hide Run, SouthStatus.Run, SouthStatus.LastSays, SouthStatus.IsSouthConnected;
    SouthAndLoopAreRuns(cfg, s, es);
    SouthStatus.SouthConnectedIff(s.south, SouthHistory(es));
  }

  lemma KeysOfStep(image: Image, obj: DataObject, now: int)
    ensures ImageStep(image, obj, now).Keys
         == image.Keys + if !IsFeedback(obj) && IsComplete(obj) then {obj.ca} else {}
  {
    hide Updated, IsMessageTypeMatching;
    TouchKeepsPoints(image, obj.ca, obj.ioa);
  }

  /** Over every run the table has the configured rows and those that events looked up. */
  lemma {:induction false} RowsOfRun(cfg: Config, s: State, es: seq<Event>)
    requires IsInitial(s)
    ensures Run(cfg, s, es).image.Keys == s.image.Keys + LookedUpIn(s, es)
  {
    hide Step, IsInitial, ImageStep, SouthWasStarted, SouthStatus.IsSouthConnected, ObjectOf;
    if es != [] {
      var front, e := es[..|es| - 1], es[|es| - 1];
      RowsOfRun(cfg, s, front);
      var t := Run(cfg, s, front);
      StepOfImage(cfg, t, e);
      SouthIsConnectedIff(cfg, s, front);
      if ObjectOf(e).Some? {
        KeysOfStep(t.image, ObjectOf(e).value, e.now);
      } else if e.CommandReceived? {
        TouchKeepsPoints(t.image, e.command.ca, 0);
      }
    }
  }

  /** Exactly which interrogations are answered as if lookups did not insert, read off the events. */
  lemma AnsweredAsWithoutInsertingIff(cfg: Config, s: State, es: seq<Event>, con: Connection, ca: int, oa: int,
                                      qoi: int)
    requires IsInitial(s)
    ensures Interrogation.Answer(cfg.limits, con, Run(cfg, s, es).image, ca, oa, qoi)
            == Interrogation.Answer(cfg.limits, con, IdealAfter(s.image, Readings(es)), ca, oa, qoi) <==>
              || qoi < QOI_STATION || qoi > QOI_GROUP_16
              || (if Terms.NamesAll(cfg.limits.caSize, ca) then LookedUpIn(s, es) <= s.image.Keys
                  else ca in s.image || ca !in LookedUpIn(s, es))
  {
    hide Run, IsInitial, Interrogation.Answer, IdealAfter, LookedUpIn, Terms.NamesAll;
    AnsweredAsWithoutInserting(cfg, s, es, con, ca, oa, qoi);
    RowsOfRun(cfg, s, es);
  }

  // ---------------------------------------------------------------- requests that notice

  /** A reading for object 1 of a common address. */
  function ReadingFor(ca: int): seq<SouthReadings.Attribute> {
    [SouthReadings.DoCa(ca), SouthReadings.DoIoa(1), SouthReadings.DoCot(COT_SPONTANEOUS),
     SouthReadings.DoType(M_SP_NA_1)]
  }

  /** Taken for an address that has no row, it leaves a row with one null cell. */
  lemma ReadingAddsRow(cfg: Config, s: State, e: Event, ca: int)
    requires e == SouthDatapoint("", DataObjectPoint(ReadingFor(ca)), true, 0) && ca != -1 && ca !in s.image
    ensures Step(cfg, s, e).image == s.image[ca := map[1 := None]] && Step(cfg, s, e).south == s.south
  {
    ReportTheorems.CollectsFour(ReadingFor(ca));
    hide SouthReadings.Collected, Step;
    StepOfImage(cfg, s, e);
    StepOfSouthAndLoop(cfg, s, e);
  }

  /** A row of null cells is answered by a confirmation and a termination. */
  lemma NullRowIsAnswered(l: Packing.Limits, con: Connection, row: map<int, Option<Point>>, ca: int, oa: int, qoi: int)
    requires QOI_STATION <= qoi && forall ioa :: ioa in row ==> row[ioa].None?
    ensures Interrogation.Response(l, con, row, ca, oa, qoi)
         == [Interrogation.ActCon(con, ca, qoi, false), Interrogation.ActTerm(con, ca, qoi)]
  {
    hide GiGroups.IsAsked;
    var os := Interrogation.RowObjects(row, qoi);
    hide Interrogation.RowObjects;
    assert os != [] ==> os[0] in os;
    InterrogationTheorems.ObjectsOfRow(row, ca, qoi);
    assert os == [];
    assert Packing.Messages(l, []) == [] && Interrogation.DataFrames(con, ca, oa, []) == [];
  }

  /** After any start, for any address that is not configured: an interrogation is refused, and after
      one reading for that address it is confirmed. */
  lemma ReadingMakesAddressKnown(cfg: Config, s: State, con: Connection, ca: int, oa: int, qoi: int)
    requires IsInitial(s) && QOI_STATION <= qoi <= QOI_GROUP_16
    requires ca !in s.image && ca != -1 && !Terms.NamesAll(cfg.limits.caSize, ca)
    ensures var es := [SouthDatapoint("", DataObjectPoint(ReadingFor(ca)), true, 0)];
            && Interrogation.Answer(cfg.limits, con, s.image, ca, oa, qoi)
               == [Interrogation.ActCon(con, ca, qoi, true)]
            && Interrogation.Answer(cfg.limits, con, Run(cfg, s, es).image, ca, oa, qoi)
               == [Interrogation.ActCon(con, ca, qoi, false), Interrogation.ActTerm(con, ca, qoi)]
  {
    Interrogation.BroadcastByNumber(cfg.limits, ca);
    var e := SouthDatapoint("", DataObjectPoint(ReadingFor(ca)), true, 0);
    ReadingAddsRow(cfg, s, e, ca);
    hide Step, Run, IsInitial, Interrogation.Response, ReadingFor;
    RunNext(cfg, s, [], e);
    assert [] + [e] == [e];
    NullRowIsAnswered(cfg.limits, con, map[1 := None], ca, oa, qoi);
  }

  /** South reports "started" for its first asset. */
  function Starts(s: State): Event
    requires s.south != []
  {
    SouthDatapoint(s.south[0].asset, SouthEventPoint([SouthStatus.ConnxStatus("started")]), true, 0)
  }

  lemma StartsConnects(cfg: Config, s: State)
    requires IsInitial(s) && s.south != []
    ensures SouthStatus.IsSouthConnected(Step(cfg, s, Starts(s)).south) && Step(cfg, s, Starts(s)).image == s.image
  {
    var status := [SouthStatus.ConnxStatus("started")];
    assert status[..0] == [] && SouthHistory([]) == [];
    var es := [Starts(s)];
    assert es[..0] == [];
    var history := SouthHistory(es);
    assert history == [SouthStatus.SouthEvent(s.south[0].asset, status)];
    assert history[0].attributes[0] == SouthStatus.ConnxStatus("started");
    assert SouthStatus.LastSays(s.south[0].asset, history, "started");
    hide Step, Run, SouthStatus.LastSays, SouthStatus.IsSouthConnected;
    assert s.south[0] in s.south;
    SouthIsConnectedIff(cfg, s, es);
    RunNext(cfg, s, [], Starts(s));
    assert [] + [Starts(s)] == es;
    StepOfImage(cfg, s, Starts(s));
  }

  /** The verdict on a command that gets as far as a row of null cells. */
  lemma VerdictOnNullRow(cfg: Config, t: State, c: CommandGate.Command, now: nat)
    requires c.cot == COT_ACTIVATION && c.io.Some? && CommandGate.IsOriginatorAllowed(cfg.gate, c.oa)
    requires SouthStatus.IsSouthConnected(t.south)
    requires forall ioa :: ioa in RowAt(t.image, c.ca) ==> RowAt(t.image, c.ca)[ioa].None?
    ensures VerdictOn(cfg, t, c, now)
         == CommandGate.Reject(if RowAt(t.image, c.ca) == map[] then COT_UNKNOWN_CA else COT_UNKNOWN_IOA)
  {
    hide CommandGate.IsOriginatorAllowed, CommandGate.CheckIfCmdTimeIsValid, SouthStatus.IsSouthConnected;
    assert TouchRow(t.image, c.ca)[c.ca] == RowAt(t.image, c.ca);
  }

  /** The two states: south connected, and then with the row. */
  lemma StartAndReading(cfg: Config, s: State, ca: int)
    requires IsInitial(s) && s.south != [] && ca !in s.image && ca != -1
    ensures var es := [Starts(s), SouthDatapoint("", DataObjectPoint(ReadingFor(ca)), true, 0)];
            var t, u := Run(cfg, s, es[..1]), Run(cfg, s, es);
            && SouthStatus.IsSouthConnected(t.south) && SouthStatus.IsSouthConnected(u.south)
            && RowAt(t.image, ca) == map[] && RowAt(u.image, ca) == map[1 := None] != map[]
  {
    var a, b := Starts(s), SouthDatapoint("", DataObjectPoint(ReadingFor(ca)), true, 0);
    StartsConnects(cfg, s);
    ReadingAddsRow(cfg, Step(cfg, s, a), b, ca);
    hide Step, Run, IsInitial, ReadingFor, Starts, SouthStatus.IsSouthConnected;
    RunNext(cfg, s, [], a);
    RunNext(cfg, s, [a], b);
    assert [] + [a] == [a] && [a] + [b] == [a, b] && [a, b][..1] == [a];
    var row: map<int, Option<Point>> := map[1 := None];
    assert 1 in row;
  }

  /** After any start with a monitored asset, for any address that is not configured: once south is
      connected and one reading for that address was taken, a command is no longer refused because its
      common address is unknown but because its object is. */
  lemma ReadingChangesTheCause(cfg: Config, s: State, c: CommandGate.Command, now: nat)
    requires IsInitial(s) && s.south != []
    requires c.cot == COT_ACTIVATION && c.io.Some? && CommandGate.IsOriginatorAllowed(cfg.gate, c.oa)
    requires c.ca !in s.image && c.ca != -1
    ensures var es := [Starts(s), SouthDatapoint("", DataObjectPoint(ReadingFor(c.ca)), true, 0)];
            && VerdictOn(cfg, Run(cfg, s, es[..1]), c, now) == CommandGate.Reject(COT_UNKNOWN_CA)
            && VerdictOn(cfg, Run(cfg, s, es), c, now) == CommandGate.Reject(COT_UNKNOWN_IOA)
  {
    hide Run, IsInitial, ReadingFor, Starts, SouthStatus.IsSouthConnected, CommandGate.IsOriginatorAllowed, VerdictOn,
         RowAt;
    StartAndReading(cfg, s, c.ca);
    var es := [Starts(s), SouthDatapoint("", DataObjectPoint(ReadingFor(c.ca)), true, 0)];
    VerdictOnNullRow(cfg, Run(cfg, s, es[..1]), c, now);
    VerdictOnNullRow(cfg, Run(cfg, s, es), c, now);
  }
}
