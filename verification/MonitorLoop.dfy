/** The monitoring thread: when it starts and stops the protocol server. */
module MonitorLoop {

  datatype Mode = ConnectAlways | ConnectIfSouthConnected

  /** What the thread does to the server, and the notice it sends south. */
  datatype Action = Start | InitSocketFinished | Stop

  datatype State = State(serverRunning: bool, initSocketFinished: bool, statusRequested: bool,
                         requests: nat, actions: seq<Action>)

  const INITIAL := State(false, false, false, 0, [])

  /** What one cycle reads from outside: whether a status request would succeed, whether south is
      connected, whether the library reports the server as running. */
  datatype Input = Input(requestSucceeds: bool, southConnected: bool, slaveRunning: bool)

  function RequestStatus(s: State, input: Input): State {
    if s.statusRequested then s
    else s.(statusRequested := input.requestSucceeds, requests := s.requests + 1)
  }

  function Control(mode: Mode, s: State, input: Input): State {
    match mode
    case ConnectAlways =>
      if s.serverRunning then s else s.(serverRunning := true, actions := s.actions + [Start])
    case ConnectIfSouthConnected =>
      if !s.serverRunning then
        if input.southConnected then s.(serverRunning := true, actions := s.actions + [Start]) else s
      else
        var s := if input.slaveRunning && !s.initSocketFinished
                 then s.(initSocketFinished := true, actions := s.actions + [InitSocketFinished]) else s;
        if input.southConnected then s
        else s.(serverRunning := false, initSocketFinished := false, actions := s.actions + [Stop])
  }

  function Cycle(mode: Mode, s: State, input: Input): State {
    Control(mode, RequestStatus(s, input), input)
  }

  function Exit(s: State): State {
    if s.serverRunning then s.(serverRunning := false, actions := s.actions + [Stop]) else s
  }

  function Cycles(mode: Mode, s: State, inputs: seq<Input>): State {
    if inputs == [] then s
    else Cycle(mode, Cycles(mode, s, inputs[..|inputs| - 1]), inputs[|inputs| - 1])
  }

  // ---------------------------------------------------------------- traces

  /** A session that is still open: start and perhaps one notice. */
  function Open(notified: bool): seq<Action> {
    if notified then [Start, InitSocketFinished] else [Start]
  }

  /** A complete session. */
  function Session(notified: bool): seq<Action> {
    Open(notified) + [Stop]
  }

  function Sessions(ns: seq<bool>): seq<Action> {
    if ns == [] then [] else Sessions(ns[..|ns| - 1]) + Session(ns[|ns| - 1])
  }

  /** Complete sessions, and after them the part of one that is still open. */
  ghost predicate IsTrace(s: State, ns: seq<bool>) {
    s.actions == Sessions(ns) + if s.serverRunning then Open(s.initSocketFinished) else []
  }

  /** What a cycle of a running server adds: the notice, unless it was sent before, and the stop. */
  function Added(notified: bool, input: Input): seq<Action> {
    (if input.slaveRunning && !notified then [InitSocketFinished] else [])
    + (if input.southConnected then [] else [Stop])
  }

  lemma OpenNext(done: seq<Action>, notified: bool, input: Input)
    ensures done + Open(notified) + Added(notified, input)
         == done + var saw := input.slaveRunning || notified; if input.southConnected then Open(saw) else Session(saw)
  {
  }

  lemma CycleOfRunning(s: State, input: Input)
    requires s.serverRunning
    ensures var t := Cycle(ConnectIfSouthConnected, s, input);
            && t.actions == s.actions + Added(s.initSocketFinished, input)
            && t.serverRunning == input.southConnected
            && t.initSocketFinished == (input.southConnected && (input.slaveRunning || s.initSocketFinished))
  {
  }

  lemma CycleExtendsTrace(s: State, input: Input, ns: seq<bool>) returns (ns': seq<bool>)
    requires IsTrace(s, ns) && (!s.serverRunning ==> !s.initSocketFinished)
    ensures var t := Cycle(ConnectIfSouthConnected, s, input);
            IsTrace(t, ns') && (!t.serverRunning ==> !t.initSocketFinished)
  {
    ns' := ns;
    if s.serverRunning {
      CycleOfRunning(s, input);
      OpenNext(Sessions(ns), s.initSocketFinished, input);
      hide Cycle, Open, Session, Added;
      if !input.southConnected {
        ns' := ns + [input.slaveRunning || s.initSocketFinished];
        assert ns'[..|ns|] == ns;
      }
    }
  }

  lemma {:induction false} TraceOf(inputs: seq<Input>) returns (ns: seq<bool>)
    ensures var s := Cycles(ConnectIfSouthConnected, INITIAL, inputs);
            IsTrace(s, ns) && (!s.serverRunning ==> !s.initSocketFinished)
  {
    if inputs == [] {
      ns := [];
    } else {
      var front := inputs[..|inputs| - 1];
      ns := TraceOf(front);
      ns := CycleExtendsTrace(Cycles(ConnectIfSouthConnected, INITIAL, front), inputs[|inputs| - 1], ns);
    }
  }

  /** South-driven control: whatever the cycles read, the actions are whole sessions and the start
      of one more; the loop exits stopped, after whole sessions. */
  lemma ActionsAreSessions(inputs: seq<Input>)
    ensures var s := Cycles(ConnectIfSouthConnected, INITIAL, inputs);
            && (exists ns :: s.actions <= Sessions(ns))
            && !Exit(s).serverRunning
            && (exists ns :: Exit(s).actions == Sessions(ns))
  {
    var s := Cycles(ConnectIfSouthConnected, INITIAL, inputs);
    var ns := TraceOf(inputs);
    if s.serverRunning {
      var whole := ns + [s.initSocketFinished];
      assert whole[..|ns|] == ns;
      assert Exit(s).actions == Sessions(whole);
      assert s.actions <= Sessions(whole);
    } else {
      assert Exit(s).actions == Sessions(ns);
    }
  }

  /** After each cycle the server runs exactly if the status read in that cycle was connected. */
  lemma {:induction false} RunsIffSouthConnected(inputs: seq<Input>)
    requires inputs != []
    ensures Cycles(ConnectIfSouthConnected, INITIAL, inputs).serverRunning <==> inputs[|inputs| - 1].southConnected
  {
    var before := Cycles(ConnectIfSouthConnected, INITIAL, inputs[..|inputs| - 1]);
    assert Cycles(ConnectIfSouthConnected, INITIAL, inputs)
        == Cycle(ConnectIfSouthConnected, before, inputs[|inputs| - 1]);
  }

  /** Some cycle since the server was last started, before cycle `n`, read the library as running. */
  ghost predicate SawItRun(inputs: seq<Input>, n: nat)
    requires n <= |inputs|
  {
    exists k :: 0 < k < n && inputs[k].slaveRunning && forall j :: k - 1 <= j < n ==> inputs[j].southConnected
  }

  lemma SawItRunNext(inputs: seq<Input>, n: nat)
    requires n < |inputs|
    ensures SawItRun(inputs, n + 1) <==>
              inputs[n].southConnected && n > 0 && inputs[n - 1].southConnected
              && (SawItRun(inputs, n) || inputs[n].slaveRunning)
    ensures SawItRun(inputs, n) ==> n > 0 && inputs[n - 1].southConnected
  {
    if SawItRun(inputs, n + 1) {
      var k :| 0 < k < n + 1 && inputs[k].slaveRunning && forall j :: k - 1 <= j < n + 1 ==> inputs[j].southConnected;
      assert inputs[n].southConnected && inputs[n - 1].southConnected;
    }
    if n > 0 && inputs[n].southConnected && inputs[n - 1].southConnected && inputs[n].slaveRunning {
      assert 0 < n < n + 1 && forall j :: n - 1 <= j < n + 1 ==> inputs[j].southConnected;
    }
  }

  /** The two flags of the loop, read off the inputs. */
  lemma {:induction false} FlagsInWords(inputs: seq<Input>, n: nat)
    requires n <= |inputs|
    ensures var s := Cycles(ConnectIfSouthConnected, INITIAL, inputs[..n]);
            && (s.serverRunning <==> n > 0 && inputs[n - 1].southConnected)
            && (s.initSocketFinished <==> SawItRun(inputs, n))
  {
    if n > 0 {
      FlagsInWords(inputs, n - 1);
      assert inputs[..n][..n - 1] == inputs[..n - 1];
      SawItRunNext(inputs, n - 1);
      hide SawItRun;
    }
  }

  /** What cycle `n` does: it starts the server if it was stopped and south is connected; if it was
      running, it sends the notice if the library runs and no cycle since the start saw that, and it
      stops the server if south is not connected. */
  ghost function CycleActions(inputs: seq<Input>, n: nat): seq<Action>
    requires n < |inputs|
  {
    if n > 0 && inputs[n - 1].southConnected then
      Added(SawItRun(inputs, n), inputs[n])
    else if inputs[n].southConnected then [Start]
    else []
  }

  /** Every action of the loop, and its place, over every list of inputs. */
  lemma ActionsInWords(inputs: seq<Input>, n: nat)
    requires n < |inputs|
    ensures Cycles(ConnectIfSouthConnected, INITIAL, inputs[..n + 1]).actions
         == Cycles(ConnectIfSouthConnected, INITIAL, inputs[..n]).actions + CycleActions(inputs, n)
  {
    FlagsInWords(inputs, n);
    assert inputs[..n + 1][..n] == inputs[..n];
    hide SawItRun;
  }

  /** Some cycle after `a` and before `m` read the library as running. */
  ghost predicate RanBetween(inputs: seq<Input>, a: nat, m: nat)
    requires m <= |inputs|
  {
    exists k :: a < k < m && inputs[k].slaveRunning
  }

  /** Inside a session that began in cycle `a`, that is what the notice depends on. */
  lemma {:induction false} OpenSessionSaw(inputs: seq<Input>, a: nat, m: nat)
    requires a < m <= |inputs| && (a == 0 || !inputs[a - 1].southConnected)
    requires forall j :: a <= j < m ==> inputs[j].southConnected
    ensures SawItRun(inputs, m) <==> RanBetween(inputs, a, m)
  {
    SawItRunNext(inputs, m - 1);
    if m > a + 1 {
      OpenSessionSaw(inputs, a, m - 1);
      hide SawItRun;
    }
  }

  /** What a cycle inside that session does. */
  lemma CycleInSession(inputs: seq<Input>, a: nat, m: nat)
    requires a < m < |inputs| && (a == 0 || !inputs[a - 1].southConnected)
    requires forall j :: a <= j < m ==> inputs[j].southConnected
    ensures RanBetween(inputs, a, m + 1) <==> inputs[m].slaveRunning || RanBetween(inputs, a, m)
    ensures CycleActions(inputs, m) == Added(RanBetween(inputs, a, m), inputs[m])
  {
    OpenSessionSaw(inputs, a, m);
    hide SawItRun;
  }

  lemma CycleOpensSession(inputs: seq<Input>, a: nat)
    requires a < |inputs| && (a == 0 || !inputs[a - 1].southConnected) && inputs[a].southConnected
    ensures CycleActions(inputs, a) == Open(RanBetween(inputs, a, a + 1))
  {
  }

  lemma {:induction false} OpenSession(inputs: seq<Input>, a: nat, m: nat)
    requires a < m <= |inputs| && (a == 0 || !inputs[a - 1].southConnected)
    requires forall j :: a <= j < m ==> inputs[j].southConnected
    ensures Cycles(ConnectIfSouthConnected, INITIAL, inputs[..m]).actions
         == Cycles(ConnectIfSouthConnected, INITIAL, inputs[..a]).actions + Open(RanBetween(inputs, a, m))
  {
    hide Cycles, SawItRun, CycleActions, Added, RanBetween, Open, Session;
    ActionsInWords(inputs, m - 1);
    if m > a + 1 {
      OpenSession(inputs, a, m - 1);
      CycleInSession(inputs, a, m - 1);
      var before := Cycles(ConnectIfSouthConnected, INITIAL, inputs[..a]).actions;
      OpenNext(before, RanBetween(inputs, a, m - 1), inputs[m - 1]);
    } else {
      CycleOpensSession(inputs, a);
    }
  }

  /** A session is notified, once, if and only if some cycle after its start, up to and including its
      stop, read the library as running. */
  lemma SessionIsNotifiedIff(inputs: seq<Input>, a: nat, b: nat)
    requires a < b < |inputs| && (a == 0 || !inputs[a - 1].southConnected)
    requires (forall j :: a <= j < b ==> inputs[j].southConnected) && !inputs[b].southConnected
    ensures Cycles(ConnectIfSouthConnected, INITIAL, inputs[..b + 1]).actions
         == Cycles(ConnectIfSouthConnected, INITIAL, inputs[..a]).actions
            + Session(exists k :: a < k <= b && inputs[k].slaveRunning)
  {
    assert RanBetween(inputs, a, b + 1) <==> exists k :: a < k <= b && inputs[k].slaveRunning;
    hide Cycles, CycleActions, Added, RanBetween, Open, Session;
    OpenSession(inputs, a, b);
    CycleInSession(inputs, a, b);
    ActionsInWords(inputs, b);
    var before := Cycles(ConnectIfSouthConnected, INITIAL, inputs[..a]).actions;
    OpenNext(before, RanBetween(inputs, a, b), inputs[b]);
  }

  /** When every connection is accepted the server is started once, in the first cycle, and stopped
      once, at exit. */
  lemma {:induction false} AlwaysModeStartsOnce(inputs: seq<Input>)
    ensures var s := Cycles(ConnectAlways, INITIAL, inputs);
            && s.actions == (if inputs == [] then [] else [Start])
            && Exit(s).actions == (if inputs == [] then [] else [Start, Stop])
  {
    if inputs != [] {
      AlwaysModeStartsOnce(inputs[..|inputs| - 1]);
    }
  }

  /** The status is requested in every cycle up to the first request that succeeds. */
  lemma {:induction false} RequestsUntilSuccess(mode: Mode, inputs: seq<Input>)
    ensures var s := Cycles(mode, INITIAL, inputs);
            && (s.statusRequested <==> exists i :: 0 <= i < |inputs| && inputs[i].requestSucceeds)
            && s.requests <= |inputs|
            && (forall i :: 0 <= i < s.requests - 1 ==> !inputs[i].requestSucceeds)
            && (s.statusRequested ==> s.requests > 0 && inputs[s.requests - 1].requestSucceeds)
            && (!s.statusRequested ==> s.requests == |inputs|)
  {
    if inputs != [] {
      var n := |inputs| - 1;
      RequestsUntilSuccess(mode, inputs[..n]);
      var before := Cycles(mode, INITIAL, inputs[..n]);
      ControlKeepsRequests(mode, RequestStatus(before, inputs[n]), inputs[n]);
      assert forall i :: 0 <= i < n ==> inputs[i] == inputs[..n][i];
    }
  }

  lemma ControlKeepsRequests(mode: Mode, s: State, input: Input)
    ensures var t := Control(mode, s, input); t.requests == s.requests && t.statusRequested == s.statusRequested
  {
  }

  // ---------------------------------------------------------------- the thread

  class MonitoringThread {
    const mode: Mode
    var serverRunning: bool
    var initSocketFinished: bool
    var statusRequested: bool
    ghost var requests: nat
    ghost var actions: seq<Action>

    ghost function Abs(): State
      reads this
    {
      State(serverRunning, initSocketFinished, statusRequested, requests, actions)
    }

    constructor (mode: Mode)
      ensures Abs() == INITIAL && this.mode == mode
    {
      this.mode := mode;
      serverRunning, initSocketFinished, statusRequested := false, false, false;
      requests, actions := 0, [];
    }

    /** One iteration of the loop, up to the sweep over the outstanding commands. */
    method RunCycle(input: Input)
      modifies this
      ensures Abs() == Cycle(mode, old(Abs()), input)
    {
      if !statusRequested {
        requests := requests + 1;
        statusRequested := input.requestSucceeds;
      }
      if mode == ConnectAlways {
        if !serverRunning {
          actions := actions + [Start];
          serverRunning := true;
        }
      } else if mode == ConnectIfSouthConnected {
        if !serverRunning {
          if input.southConnected {
            actions := actions + [Start];
            serverRunning := true;
          }
        } else {
          if input.slaveRunning && !initSocketFinished {
            actions := actions + [InitSocketFinished];
            initSocketFinished := true;
          }
          if !input.southConnected {
            actions := actions + [Stop];
            serverRunning := false;
            initSocketFinished := false;
          }
        }
      }
    }

    /** The whole thread: one cycle per input until it is told to end, then the final stop. */
    method RunThread(inputs: seq<Input>)
      modifies this
      ensures Abs() == Exit(Cycles(mode, old(Abs()), inputs))
    {
      var i := 0;
      assert inputs[..0] == [];
      while i < |inputs|
        invariant 0 <= i <= |inputs|
        invariant Abs() == Cycles(mode, old(Abs()), inputs[..i])
      {
        assert inputs[..i + 1][..i] == inputs[..i];
        RunCycle(inputs[i]);
        i := i + 1;
      }
      assert inputs[..i] == inputs;
      if serverRunning {
        actions := actions + [Stop];
        serverRunning := false;
      }
    }
  }
}
