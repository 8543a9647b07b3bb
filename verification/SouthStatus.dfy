/** What the server knows of the south side: one monitor per configured asset, updated in place by
    south events, with first-match search over assets that may be listed twice. */
module SouthStatus {

  datatype Connx = Started | NotConnected
  datatype Gi = GiIdle | GiStarted | GiInProgress | GiFailed | GiFinished

  datatype Monitor = Monitor(asset: string, connx: Connx, gi: Gi)

  /** One attribute of a south event. */
  datatype Attribute = ConnxStatus(text: string) | GiStatus(text: string) | OtherAttribute

  datatype SouthEvent = SouthEvent(asset: string, attributes: seq<Attribute>)

  function ConnxOf(text: string): Connx {
    if text == "started" then Started else NotConnected
  }

  function GiOf(text: string): Gi {
    if text == "started" then GiStarted
    else if text == "in progress" then GiInProgress
    else if text == "failed" then GiFailed
    else if text == "finished" then GiFinished
    else GiIdle
  }

  /** One attribute after the other. */
  function UpdatedMonitor(m: Monitor, attributes: seq<Attribute>): Monitor {
    if attributes == [] then m
    else
      var m := UpdatedMonitor(m, attributes[..|attributes| - 1]);
      match attributes[|attributes| - 1]
      case ConnxStatus(text) => m.(connx := ConnxOf(text))
      case GiStatus(text) => m.(gi := GiOf(text))
      case OtherAttribute => m
  }

  /** The first monitor of an asset, or `|ms|`. */
  function FirstOf(ms: seq<Monitor>, asset: string): (i: nat)
    ensures i <= |ms|
    ensures i < |ms| ==> ms[i].asset == asset
    ensures forall j :: 0 <= j < i ==> ms[j].asset != asset
  {
    if ms == [] then 0
    else if ms[0].asset == asset then 0
    else 1 + FirstOf(ms[1..], asset)
  }

  function Step(ms: seq<Monitor>, e: SouthEvent): seq<Monitor> {
    var i := FirstOf(ms, e.asset);
    if i == |ms| then ms else ms[i := UpdatedMonitor(ms[i], e.attributes)]
  }

  predicate IsSouthConnected(ms: seq<Monitor>) {
    exists i :: 0 <= i < |ms| && ms[i].connx == Started
  }

  // ---------------------------------------------------------------- history

  function Run(ms: seq<Monitor>, history: seq<SouthEvent>): seq<Monitor> {
    if history == [] then ms
    else Step(Run(ms, history[..|history| - 1]), history[|history| - 1])
  }

  /** Position of the last connection status among attributes, -1 if there is none. */
  function LastStatus(attributes: seq<Attribute>): (k: int)
    ensures -1 <= k < |attributes|
    ensures k >= 0 ==> attributes[k].ConnxStatus?
    ensures forall j :: k < j < |attributes| ==> !attributes[j].ConnxStatus?
  {
    if attributes == [] then -1
    else if attributes[|attributes| - 1].ConnxStatus? then |attributes| - 1
    else LastStatus(attributes[..|attributes| - 1])
  }

  /** The latest connection status a history reports for an asset, "not connected" to begin with. */
  function Latest(asset: string, history: seq<SouthEvent>): Connx {
    if history == [] then NotConnected
    else
      var e := history[|history| - 1];
      var k := LastStatus(e.attributes);
      if e.asset == asset && k >= 0 then ConnxOf(e.attributes[k].text)
      else Latest(asset, history[..|history| - 1])
  }

  lemma {:induction false} UpdateTakesTheLast(m: Monitor, attributes: seq<Attribute>)
    ensures var k := LastStatus(attributes);
            UpdatedMonitor(m, attributes).connx == if k >= 0 then ConnxOf(attributes[k].text) else m.connx
    ensures UpdatedMonitor(m, attributes).asset == m.asset
  {
    if attributes != [] {
      UpdateTakesTheLast(m, attributes[..|attributes| - 1]);
    }
  }

  /** The first monitor of an asset holds its latest status; a second one never learns anything. */
  lemma {:induction false} MonitorsHoldTheLatest(ms: seq<Monitor>, history: seq<SouthEvent>)
    requires forall m :: m in ms ==> m.connx == NotConnected
    ensures var now := Run(ms, history);
            && |now| == |ms|
            && (forall i :: 0 <= i < |ms| ==> now[i].asset == ms[i].asset)
            && (forall i :: 0 <= i < |ms| ==>
                  now[i].connx == if FirstOf(ms, ms[i].asset) == i then Latest(ms[i].asset, history) else NotConnected)
  {
    if history == [] {
      assert forall i :: 0 <= i < |ms| ==> ms[i] in ms;
    } else {
      var front, e := history[..|history| - 1], history[|history| - 1];
      MonitorsHoldTheLatest(ms, front);
      var before := Run(ms, front);
      SameAssetsSameFirst(ms, before, e.asset);
      var i := FirstOf(before, e.asset);
      if i < |before| {
        UpdateTakesTheLast(before[i], e.attributes);
      }
      forall j | 0 <= j < |ms|
        ensures FirstOf(ms, ms[j].asset) == j && ms[j].asset == e.asset <==> j == i
      {
        if j == i {
          SameAssetsSameFirst(ms, before, ms[j].asset);
        }
      }
    }
  }

  lemma SameAssetsSameFirst(a: seq<Monitor>, b: seq<Monitor>, asset: string)
    requires |a| == |b| && forall i :: 0 <= i < |a| ==> a[i].asset == b[i].asset
    ensures FirstOf(a, asset) == FirstOf(b, asset)
  {
  }

  /** The last connection status that an event carries is this text. */
  ghost predicate EventSays(e: SouthEvent, text: string) {
    exists k ::
      && 0 <= k < |e.attributes| && e.attributes[k] == ConnxStatus(text)
      && forall j :: k < j < |e.attributes| ==> !e.attributes[j].ConnxStatus?
  }

  ghost predicate BringsNone(e: SouthEvent) {
    forall k :: 0 <= k < |e.attributes| ==> !e.attributes[k].ConnxStatus?
  }

  /** The last connection status that a history brings for an asset is this text. */
  ghost predicate LastSays(asset: string, history: seq<SouthEvent>, text: string) {
    exists n ::
      && 0 <= n < |history| && history[n].asset == asset && EventSays(history[n], text)
      && forall m :: n < m < |history| && history[m].asset == asset ==> BringsNone(history[m])
  }

  lemma EventInWords(e: SouthEvent)
    ensures var k := LastStatus(e.attributes);
            && (BringsNone(e) <==> k == -1)
            && (EventSays(e, "started") <==> k >= 0 && ConnxOf(e.attributes[k].text) == Started)
  {
    var k := LastStatus(e.attributes);
    if k >= 0 && e.attributes[k].text == "started" {
      assert e.attributes[k] == ConnxStatus("started");
    }
  }

  lemma SaysNothing(e: SouthEvent, text: string)
    ensures BringsNone(e) ==> !EventSays(e, text)
  {
  }

  lemma LastSaysNext(asset: string, front: seq<SouthEvent>, e: SouthEvent, text: string)
    ensures LastSays(asset, front + [e], text) <==>
              if e.asset == asset && !BringsNone(e) then EventSays(e, text) else LastSays(asset, front, text)
  {
    var history := front + [e];
    SaysNothing(e, text);
    hide EventSays, BringsNone;
    if n :| 0 <= n < |front| && front[n].asset == asset && EventSays(front[n], text)
            && forall m :: n < m < |front| && front[m].asset == asset ==> BringsNone(front[m]) {
      assert history[n] == front[n] && history[|front|] == e;
    }
    if n :| 0 <= n < |history| && history[n].asset == asset && EventSays(history[n], text)
            && forall m :: n < m < |history| && history[m].asset == asset ==> BringsNone(history[m]) {
      assert n < |front| ==> history[|front|] == e && history[n] == front[n];
      assert forall m :: 0 <= m < |front| ==> history[m] == front[m];
    }
    assert history[|front|] == e;
  }

  lemma {:induction false} LatestInWords(asset: string, history: seq<SouthEvent>)
    ensures Latest(asset, history) == Started <==> LastSays(asset, history, "started")
  {
    if history != [] {
      var front, e := history[..|history| - 1], history[|history| - 1];
      LatestInWords(asset, front);
      LastSaysNext(asset, front, e, "started");
      EventInWords(e);
      assert history == front + [e];
      hide LastSays, EventSays, BringsNone;
    }
  }

  /** South is taken to be connected exactly if the last status brought for some configured asset is
      the text "started", also when assets are listed more than once. */
  lemma SouthConnectedIff(ms: seq<Monitor>, history: seq<SouthEvent>)
    requires forall m :: m in ms ==> m.connx == NotConnected
    ensures IsSouthConnected(Run(ms, history)) <==> exists m :: m in ms && LastSays(m.asset, history, "started")
  {
    hide LastSays;
    MonitorsHoldTheLatest(ms, history);
    ConnectedIffLatest(ms, Run(ms, history), history);
    hide Latest, Run, IsSouthConnected;
    forall m | m in ms
      ensures Latest(m.asset, history) == Started <==> LastSays(m.asset, history, "started")
    {
      LatestInWords(m.asset, history);
    }
  }

  lemma ConnectedIffLatest(ms: seq<Monitor>, now: seq<Monitor>, history: seq<SouthEvent>)
    requires |now| == |ms|
    requires forall i :: 0 <= i < |ms| ==>
               now[i].connx == if FirstOf(ms, ms[i].asset) == i then Latest(ms[i].asset, history) else NotConnected
    ensures IsSouthConnected(now) <==> exists m :: m in ms && Latest(m.asset, history) == Started
  {
    hide Latest;
    if i :| 0 <= i < |now| && now[i].connx == Started {
      assert ms[i] in ms;
    }
    if m :| m in ms && Latest(m.asset, history) == Started {
      var k :| 0 <= k < |ms| && ms[k] == m;
      var i := FirstOf(ms, m.asset);
      assert i < |ms| && ms[i].asset == m.asset;
      assert now[i].connx == Started;
    }
  }

  /** What the last general interrogation status of an update says, by its text. */
  lemma {:induction false} GiInWords(m: Monitor, attributes: seq<Attribute>, k: nat)
    requires k < |attributes| && attributes[k].GiStatus?
    requires forall j :: k < j < |attributes| ==> !attributes[j].GiStatus?
    ensures var gi, text := UpdatedMonitor(m, attributes).gi, attributes[k].text;
            && (gi == GiStarted <==> text == "started") && (gi == GiInProgress <==> text == "in progress")
            && (gi == GiFailed <==> text == "failed") && (gi == GiFinished <==> text == "finished")
    decreases |attributes|
  {
    if k < |attributes| - 1 {
      GiInWords(m, attributes[..|attributes| - 1], k);
    } else {
      assert "started" != "failed" && "started" != "in progress" && "started" != "finished";
      assert "failed"[2] != "finished"[2] && "in progress" != "failed" && "in progress" != "finished";
    }
  }

  // ---------------------------------------------------------------- the objects

  class SouthPluginMonitor {
    const assetName: string
    var connxStatus: Connx
    var giStatus: Gi

    function View(): Monitor
      reads this
    {
      Monitor(assetName, connxStatus, giStatus)
    }

    constructor (assetName: string)
      ensures View() == Monitor(assetName, NotConnected, GiIdle)
    {
      this.assetName := assetName;
      connxStatus, giStatus := NotConnected, GiIdle;
    }

    /** `updateSouthMonitoringInstance` */
    method Update(attributes: seq<Attribute>)
      modifies this
      ensures View() == UpdatedMonitor(old(View()), attributes)
    {
      var i := 0;
      assert attributes[..0] == [];
      while i < |attributes|
        invariant 0 <= i <= |attributes|
        invariant View() == UpdatedMonitor(old(View()), attributes[..i])
      {
        assert attributes[..i + 1][..i] == attributes[..i];
        match attributes[i] {
          case ConnxStatus(text) =>
            connxStatus := ConnxOf(text);
          case GiStatus(text) =>
            giStatus := GiOf(text);
          case OtherAttribute =>
        }
        i := i + 1;
      }
      assert attributes[..i] == attributes;
    }
  }

  ghost function Views(ms: seq<SouthPluginMonitor>): (vs: seq<Monitor>)
    reads ms
    ensures |vs| == |ms|
    ensures forall i :: 0 <= i < |ms| ==> vs[i] == ms[i].View()
  {
    seq(|ms|, i requires 0 <= i < |ms| reads ms => ms[i].View())
  }

  class SouthMonitors {
    const monitors: seq<SouthPluginMonitor>

    ghost predicate Valid() {
      forall i, j :: 0 <= i < j < |monitors| ==> monitors[i] != monitors[j]
    }

    ghost function Abs(): seq<Monitor>
      reads monitors
    {
      Views(monitors)
    }

    /** What is not written stays. */
    twostate lemma Stays()
      requires unchanged(monitors)
      ensures Abs() == old(Abs())
    {
    }

    constructor (monitors: seq<SouthPluginMonitor>)
      requires forall i, j :: 0 <= i < j < |monitors| ==> monitors[i] != monitors[j]
      ensures Valid() && this.monitors == monitors
    {
      this.monitors := monitors;
    }

    /** The branch of `send` for a south event. */
    method HandleSouthEvent(e: SouthEvent)
      requires Valid()
      modifies monitors
      ensures Abs() == Step(old(Abs()), e)
    {
      ghost var was := Abs();
      var i := 0;
      while i < |monitors|
        invariant 0 <= i <= |monitors| && unchanged(monitors)
        invariant forall j :: 0 <= j < i ==> monitors[j].assetName != e.asset
      {
        if monitors[i].assetName == e.asset {
          assert FirstOf(was, e.asset) == i;
          monitors[i].Update(e.attributes);
          assert Abs() == was[i := UpdatedMonitor(was[i], e.attributes)];
          return;
        }
        i := i + 1;
      }
    }

    method CheckIfSouthConnected() returns (connected: bool)
      ensures connected == IsSouthConnected(Abs())
    {
      var i := 0;
      while i < |monitors|
        invariant 0 <= i <= |monitors|
        invariant forall j :: 0 <= j < i ==> monitors[j].connxStatus != Started
      {
        if monitors[i].connxStatus == Started {
          assert Abs()[i].connx == Started;
          return true;
        }
        i := i + 1;
      }
      return false;
    }
  }

  /** The monitors of a configuration before anything was heard of the assets. */
  function MonitorsOf(assets: seq<string>): (ms: seq<Monitor>)
    ensures |ms| == |assets|
    ensures forall i :: 0 <= i < |assets| ==> ms[i] == Monitor(assets[i], NotConnected, GiIdle)
  {
    seq(|assets|, i requires 0 <= i < |assets| => Monitor(assets[i], NotConnected, GiIdle))
  }

  /** The loop of the import over the monitored assets; an asset may be listed twice. */
  method ImportMonitors(assets: seq<string>) returns (south: SouthMonitors)
    ensures fresh(south) && fresh(south.monitors) && south.Valid() && south.Abs() == MonitorsOf(assets)
  {
    var monitors: seq<SouthPluginMonitor> := [];
    var n := 0;
    while n < |assets|
      invariant 0 <= n == |monitors| <= |assets| && fresh(monitors)
      invariant forall i, j :: 0 <= i < j < n ==> monitors[i] != monitors[j]
      invariant forall i :: 0 <= i < n ==> monitors[i].View() == Monitor(assets[i], NotConnected, GiIdle)
    {
      var monitor := new SouthPluginMonitor(assets[n]);
      monitors := monitors + [monitor];
      n := n + 1;
    }
    south := new SouthMonitors(monitors);
  }
}
