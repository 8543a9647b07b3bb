/** What holds of the table of outstanding commands over every run: conservation of commands,
    the deadline discipline and the language of frames per command. */
module PendingRuns {
  import opened Machine
  import opened PendingSpec

  // ---------------------------------------------------------------- conservation

  ghost function Ids(p: seq<Command>): (r: seq<nat>)
    ensures |r| == |p|
  {
    seq(|p|, i requires 0 <= i < |p| => p[i].id)
  }

  ghost function RemovedIds(r: seq<Removal>): (ids: seq<nat>)
    ensures |ids| == |r|
  {
    seq(|r|, i requires 0 <= i < |r| => r[i].id)
  }

  /** The table keeps arrival order. */
  ghost predicate Ordered(p: seq<Command>) {
    forall i, j :: 0 <= i < j < |p| ==> p[i].id < p[j].id
  }

  ghost predicate Traced(c: Command, log: seq<Command>) {
    c.id < |log| && c.SameOrigin(log[c.id])
  }

  /** Every pending command is the arrived command of that number, in arrival order. */
  ghost predicate Origin(s: State) {
    && (forall i :: 0 <= i < |s.arrived| ==> s.arrived[i].id == i)
    && (forall c :: c in s.pending ==> Traced(c, s.arrived))
    && Ordered(s.pending)
  }

  /** Counted with multiplicity, arrivals are what is pending plus what was removed. */
  ghost predicate Balanced(s: State) {
    multiset(Ids(s.pending)) + multiset(RemovedIds(s.removed)) == multiset(Ids(s.arrived))
  }

  lemma {:induction false} KeptMembers(p: seq<Command>, e: Event)
    ensures forall c :: c in Kept(p, e) <==> c in p && !Drops(e, c)
    ensures forall r :: r in Dropped(p, e) ==>
              r.cause == CauseOf(e) && exists c :: c in p && c.id == r.id && Drops(e, c)
  {
    if p == [] {
    } else {
      var front, c := p[..|p| - 1], p[|p| - 1];
      assert p == front + [c];
      KeptMembers(front, e);
      forall r | r in Dropped(p, e)
        ensures r.cause == CauseOf(e) && exists c :: c in p && c.id == r.id && Drops(e, c)
      {
        if r in Dropped(front, e) {
          var d :| d in front && d.id == r.id && Drops(e, d);
          assert d in p;
        } else {
          assert c in p;
        }
      }
    }
  }

  lemma {:induction false} KeptOrdered(p: seq<Command>, e: Event)
    requires Ordered(p)
    ensures Ordered(Kept(p, e))
  {
    if p == [] {
    } else {
      var front, c := p[..|p| - 1], p[|p| - 1];
      KeptOrdered(front, e);
      KeptMembers(front, e);
      forall i | 0 <= i < |Kept(front, e)|
        ensures Kept(front, e)[i].id < c.id
      {
        assert Kept(front, e)[i] in front;
      }
    }
  }

  lemma IdsOfMore(p: seq<Command>, c: Command, r: seq<Removal>, removal: Removal)
    ensures Ids(p + [c]) == Ids(p) + [c.id] && RemovedIds(r + [removal]) == RemovedIds(r) + [removal.id]
  {
  }

  lemma {:induction false} KeptBalances(p: seq<Command>, e: Event)
    ensures multiset(Ids(Kept(p, e))) + multiset(RemovedIds(Dropped(p, e))) == multiset(Ids(p))
  {
    if p == [] {
    } else {
      var front, c := p[..|p| - 1], p[|p| - 1];
      var removal := Removal(c.id, CauseOf(e));
      assert p == front + [c];
      KeptBalances(front, e);
      IdsOfMore(front, c, Dropped(front, e), removal);
      IdsOfMore(Kept(front, e), c, [], removal);
      assert Kept(p, e) == if Drops(e, c) then Kept(front, e) else Kept(front, e) + [c];
      assert Dropped(p, e) == if Drops(e, c) then Dropped(front, e) + [removal] else Dropped(front, e);
      hide Ids, RemovedIds, Kept, Dropped, Drops;
    }
  }

  lemma WithoutBalances(p: seq<Command>, i: nat)
    requires i < |p|
    ensures multiset(Ids(Without(p, i))) + multiset{p[i].id} == multiset(Ids(p))
  {
    assert Ids(Without(p, i)) == Ids(p[..i]) + Ids(p[i + 1..]);
    assert Ids(p) == Ids(p[..i]) + [p[i].id] + Ids(p[i + 1..]);
  }

  lemma WithoutOrdered(p: seq<Command>, i: nat)
    requires i < |p| && Ordered(p)
    ensures Ordered(Without(p, i))
    ensures forall c :: c in Without(p, i) ==> c in p && c.id != p[i].id
  {
  }

  lemma StepKeepsOrigin(T: int, s: State, e: Event)
    requires Origin(s)
    ensures Origin(Step(T, s, e))
  {
    if e.Confirm? || e.Terminate? {
      var i := FirstMatch(s.pending, e.key);
      if i < |s.pending| {
        WithoutOrdered(s.pending, i);
        assert s.pending[i] in s.pending;
      }
    } else if e.Arrive? {
      assert forall i :: 0 <= i < |s.pending| ==> s.pending[i] in s.pending;
    } else {
      KeptMembers(s.pending, e);
      KeptOrdered(s.pending, e);
    }
  }

  lemma FeedbackKeepsBalance(T: int, s: State, e: Event)
    requires (e.Confirm? || e.Terminate?) && Balanced(s)
    ensures Balanced(Step(T, s, e))
  {
    var t := Step(T, s, e);
    var i := FirstMatch(s.pending, e.key);
    if i < |s.pending| {
      if e.Confirm? && !s.pending[i].isSelect {
        assert Ids(t.pending) == Ids(s.pending);
      } else {
        WithoutBalances(s.pending, i);
        assert RemovedIds(t.removed) == RemovedIds(s.removed) + [s.pending[i].id];
      }
    }
  }

  lemma StepKeepsBalance(T: int, s: State, e: Event)
    requires Balanced(s)
    ensures Balanced(Step(T, s, e))
  {
    var t := Step(T, s, e);
    if e.Arrive? {
      assert Ids(t.pending) == Ids(s.pending) + [|s.arrived|];
      assert Ids(t.arrived) == Ids(s.arrived) + [|s.arrived|];
    } else if e.Confirm? || e.Terminate? {
      FeedbackKeepsBalance(T, s, e);
    } else {
      KeptBalances(s.pending, e);
      assert RemovedIds(t.removed) == RemovedIds(s.removed) + RemovedIds(Dropped(s.pending, e));
    }
  }

  lemma {:induction false} RunKeepsOrigin(T: int, es: seq<Event>)
    ensures Origin(Run(T, EMPTY, es)) && Balanced(Run(T, EMPTY, es))
  {
    if es == [] {
    } else {
      var front := es[..|es| - 1];
      RunKeepsOrigin(T, front);
      StepKeepsOrigin(T, Run(T, EMPTY, front), es[|es| - 1]);
      StepKeepsBalance(T, Run(T, EMPTY, front), es[|es| - 1]);
    }
  }

  /** `a` is `b` with elements left out: positions `f` of the elements of `a` in `b`. */
  ghost predicate PicksInOrder(a: seq<Command>, b: seq<Command>, f: seq<nat>) {
    && |f| == |a|
    && (forall i :: 0 <= i < |f| ==> f[i] < |b| && a[i].SameOrigin(b[f[i]]))
    && (forall i, j :: 0 <= i < j < |f| ==> f[i] < f[j])
  }

  lemma OccursExactlyOnce(n: nat, id: nat, ids: seq<nat>)
    requires |ids| == n && forall i :: 0 <= i < n ==> ids[i] == i
    ensures multiset(ids)[id] == if id < n then 1 else 0
  {
    if n > 0 {
      assert ids == ids[..n - 1] + [n - 1];
      OccursExactlyOnce(n - 1, id, ids[..n - 1]);
    }
  }

  /** Conservation of commands: whatever the run, each command that arrived is either pending or
      was removed, once; nothing else is; and the table is the arrival log with gaps. */
  lemma ConservationOfCommands(T: int, es: seq<Event>)
    ensures var s := Run(T, EMPTY, es);
            && (forall id: nat ::
                  multiset(Ids(s.pending))[id] + multiset(RemovedIds(s.removed))[id]
                  == if id < |s.arrived| then 1 else 0)
            && exists f :: PicksInOrder(s.pending, s.arrived, f)
  {
    var s := Run(T, EMPTY, es);
    RunKeepsOrigin(T, es);
    forall id: nat
      ensures multiset(Ids(s.pending))[id] + multiset(RemovedIds(s.removed))[id]
           == if id < |s.arrived| then 1 else 0
    {
      OccursExactlyOnce(|s.arrived|, id, Ids(s.arrived));
      assert (multiset(Ids(s.pending)) + multiset(RemovedIds(s.removed)))[id] == multiset(Ids(s.arrived))[id];
    }
    assert forall i :: 0 <= i < |s.pending| ==> s.pending[i] in s.pending;
    assert PicksInOrder(s.pending, s.arrived, Ids(s.pending));
  }

  /** Why an event may remove a command. */
  ghost predicate Justifies(e: Event, c: Command, cause: Cause) {
    match cause
    case SelectConfirmed => e.Confirm? && c.isSelect && c.key == e.key
    case Terminated => e.Terminate? && c.key == e.key
    case TimedOut => e.Sweep? && e.now > c.deadline
    case ConnectionLost => e.Lose? && c.con == e.con
    case ShutDown => e.RemoveAll?
  }

  /** Every removal a step logs is of a command that was pending, for the cause it names; and the
      frames and removals logged before stay as they were. */
  lemma RemovalsAreJustified(T: int, s: State, e: Event)
    ensures var t := Step(T, s, e);
            && s.removed <= t.removed && s.sent <= t.sent && s.arrived <= t.arrived
            && forall i :: |s.removed| <= i < |t.removed| ==>
                 exists c :: c in s.pending && c.id == t.removed[i].id && Justifies(e, c, t.removed[i].cause)
  {
    var t := Step(T, s, e);
    if e.Confirm? || e.Terminate? {
      var i := FirstMatch(s.pending, e.key);
      if i < |s.pending| {
        var c := s.pending[i];
        assert c in s.pending && (e.Terminate? || c.isSelect ==> Justifies(e, c, CauseOf(e)));
      }
    } else if !e.Arrive? {
      KeptMembers(s.pending, e);
      forall i | |s.removed| <= i < |t.removed|
        ensures exists c :: c in s.pending && c.id == t.removed[i].id && Justifies(e, c, t.removed[i].cause)
      {
        var r := Dropped(s.pending, e)[i - |s.removed|];
        assert r in Dropped(s.pending, e);
        var c :| c in s.pending && c.id == r.id && Drops(e, c);
        assert Justifies(e, c, r.cause);
      }
    }
  }

  /** The command that feedback is for. */
  function Addressee(s: State, e: Event): (c: Command)
    requires (e.Confirm? || e.Terminate?) && FirstMatch(s.pending, e.key) < |s.pending|
    ensures c in s.pending && c.key == e.key
  {
    s.pending[FirstMatch(s.pending, e.key)]
  }

  /** The frame that feedback sends to it. */
  function FeedbackFrame(c: Command, e: Event): Frame
    requires e.Confirm? || e.Terminate?
  {
    Frame(c.con, c.id, e.key, if e.Confirm? then ActCon else ActTerm, e.negative)
  }

  /** What feedback does, member by member: the other commands stay as they are, and the addressee
      stays, confirmed, only if it is a direct command that is not terminated. */
  lemma FeedbackMembers(T: int, s: State, e: Event)
    requires (e.Confirm? || e.Terminate?) && Ordered(s.pending) && FirstMatch(s.pending, e.key) < |s.pending|
    ensures var t, c := Step(T, s, e), Addressee(s, e);
            && t.arrived == s.arrived && t.sent == s.sent + [FeedbackFrame(c, e)]
            && forall d :: d in t.pending ==>
                 || (d in s.pending && d.id != c.id)
                 || (e.Confirm? && !c.isSelect && d == Confirmed(c, e.negative))
  {
    hide Confirmed;
    var t, i := Step(T, s, e), FirstMatch(s.pending, e.key);
    forall d | d in t.pending
      ensures || (d in s.pending && d.id != s.pending[i].id)
              || (e.Confirm? && !s.pending[i].isSelect && d == Confirmed(s.pending[i], e.negative))
    {
      var j :| 0 <= j < |t.pending| && t.pending[j] == d;
      var k := if j < i || |t.pending| == |s.pending| then j else j + 1;
      assert (j == i && |t.pending| == |s.pending|) || (d == s.pending[k] && k != i);
    }
  }

  lemma ConfirmedIsSame(c: Command, negative: bool)
    ensures c.SameOrigin(Confirmed(c, negative)) && Confirmed(c, negative).deadline in {c.deadline, 0}
    ensures negative ==> Confirmed(c, negative).deadline == 0
  {
  }

  // ---------------------------------------------------------------- deadlines

  /** Largest configured execution timeout, in seconds, whose milliseconds are an `int`. */
  const MAX_EXEC_TIMEOUT := 2147483

  /** The deadline is the arrival time plus the timeout exactly for timeouts up to that limit. */
  lemma DeadlineIsExactIff(now: nat, T: int)
    requires 0 <= T < TWO_31 && now + 1000 * T < TWO_64
    ensures NextTimeout(now, T) == now + 1000 * T <==> T <= MAX_EXEC_TIMEOUT
  {
  }

  function TimeOf(e: Event): Option<nat> {
    if e.Arrive? || e.Sweep? then Some(e.now) else None
  }

  /** The last time read in a run; 0 before the first. */
  ghost function Clock(es: seq<Event>): nat {
    if es == [] then 0
    else if TimeOf(es[|es| - 1]).Some? then TimeOf(es[|es| - 1]).value
    else Clock(es[..|es| - 1])
  }

  /** The environment's clock never goes back and stays within 64 bits. */
  ghost predicate Timely(T: int, es: seq<Event>) {
    es == [] ||
    (&& Timely(T, es[..|es| - 1])
     && Clock(es[..|es| - 1]) <= Clock(es)
     && Clock(es) + 1000 * T < TWO_64)
  }

  ghost predicate Disciplined(T: int, clock: nat, s: State) {
    && (forall i :: 0 <= i < |s.arrived| ==> s.arrived[i].received <= clock)
    && (forall i, j :: 0 <= i < j < |s.arrived| ==> s.arrived[i].received <= s.arrived[j].received)
    && (forall c :: c in s.pending ==> DeadlineFits(T, c))
  }

  ghost predicate DeadlineFits(T: int, c: Command) {
    && (c.deadline == 0 || c.deadline == c.received + 1000 * T)
    && (c.phase == Completed ==> c.deadline == 0)
  }

  lemma StepKeepsDiscipline(T: int, s: State, e: Event, clock: nat, later: nat)
    requires 0 <= T <= MAX_EXEC_TIMEOUT && Origin(s) && Disciplined(T, clock, s)
    requires clock <= later && later + 1000 * T < TWO_64
    requires TimeOf(e).Some? ==> TimeOf(e).value == later
    ensures Disciplined(T, later, Step(T, s, e))
  {
    if e.Arrive? {
      DeadlineIsExactIff(e.now, T);
    } else if e.Confirm? || e.Terminate? {
      var i := FirstMatch(s.pending, e.key);
      assert i < |s.pending| ==> DeadlineFits(T, s.pending[i]) && s.pending[i] in s.pending;
    } else {
      KeptMembers(s.pending, e);
    }
  }

  lemma {:induction false} RunKeepsDiscipline(T: int, es: seq<Event>)
    requires 0 <= T <= MAX_EXEC_TIMEOUT && Timely(T, es)
    ensures Disciplined(T, Clock(es), Run(T, EMPTY, es))
  {
    if es == [] {
    } else {
      var front := es[..|es| - 1];
      RunKeepsDiscipline(T, front);
      RunKeepsOrigin(T, front);
      StepKeepsDiscipline(T, Run(T, EMPTY, front), es[|es| - 1], Clock(front), Clock(es));
    }
  }

  /** The deadline discipline in every reachable state: a deadline is 0 or arrival plus timeout,
      a completed command has deadline 0, and along the vector the non-zero deadlines are sorted. */
  lemma DeadlineDiscipline(T: int, es: seq<Event>)
    requires 0 <= T <= MAX_EXEC_TIMEOUT && Timely(T, es)
    ensures var p := Run(T, EMPTY, es).pending;
            && (forall c :: c in p ==> c.deadline == 0 || c.deadline == c.received + 1000 * T)
            && (forall c :: c in p && c.phase == Completed ==> c.deadline == 0)
            && (forall i, j :: 0 <= i < j < |p| && p[i].deadline != 0 && p[j].deadline != 0 ==>
                  p[i].deadline <= p[j].deadline)
  {
    RunKeepsDiscipline(T, es);
    RunKeepsOrigin(T, es);
    var s := Run(T, EMPTY, es);
    assert forall c :: c in s.pending ==> DeadlineFits(T, c);
    forall i, j | 0 <= i < j < |s.pending| && s.pending[i].deadline != 0 && s.pending[j].deadline != 0
      ensures s.pending[i].deadline <= s.pending[j].deadline
    {
      assert s.pending[i] in s.pending && s.pending[j] in s.pending;
      assert Traced(s.pending[i], s.arrived) && Traced(s.pending[j], s.arrived);
    }
  }

  /** A sweep at a positive time leaves exactly the commands whose deadline is not before it, in
      order, and so none that is completed. */
  lemma SweepKeepsTheUnexpired(T: int, es: seq<Event>, now: nat)
    requires 0 <= T <= MAX_EXEC_TIMEOUT && Timely(T, es) && now > 0
    ensures var before := Run(T, EMPTY, es).pending;
            var after := Run(T, EMPTY, es + [Sweep(now)]).pending;
            && (forall c :: c in after <==> c in before && c.deadline >= now)
            && (forall i, j :: 0 <= i < j < |after| ==> after[i].id < after[j].id)
            && (forall c :: c in after ==> c.phase != Completed)
  {
    assert (es + [Sweep(now)])[..|es|] == es;
    KeptMembers(Run(T, EMPTY, es).pending, Sweep(now));
    DeadlineDiscipline(T, es);
    RunKeepsOrigin(T, es + [Sweep(now)]);
  }

  lemma SameIdSameCommand(p: seq<Command>, c: Command, d: Command)
    requires Ordered(p) && c in p && d in p && c.id == d.id
    ensures c == d
  {
  }

  /** A step never moves the deadline of a command that stays. */
  lemma DeadlinesNeverIncrease(T: int, s: State, e: Event, c: Command, d: Command)
    requires Origin(s) && c in s.pending && d in Step(T, s, e).pending && c.id == d.id
    ensures d.deadline in {c.deadline, 0}
  {
    if e.Confirm? || e.Terminate? {
      if FirstMatch(s.pending, e.key) < |s.pending| {
        FeedbackMembers(T, s, e);
        ConfirmedIsSame(Addressee(s, e), e.negative);
        hide Step, FirstMatch, Confirmed, Ordered, Addressee;
        SameIdSameCommand(s.pending, c, if d in s.pending then d else Addressee(s, e));
      } else {
        SameIdSameCommand(s.pending, c, d);
      }
    } else if e.Arrive? {
      assert d in s.pending || d.id == |s.arrived|;
      assert Traced(c, s.arrived);
      SameIdSameCommand(s.pending, c, if d in s.pending then d else c);
    } else {
      KeptMembers(s.pending, e);
      SameIdSameCommand(s.pending, c, d);
    }
  }

  // ---------------------------------------------------------------- frames

  /** The frames a log holds for one command, in order. */
  ghost function FramesOf(log: seq<Frame>, id: nat): seq<Frame> {
    if log == [] then []
    else FramesOf(log[..|log| - 1], id) + (if log[|log| - 1].id == id then [log[|log| - 1]] else [])
  }

  /** Any number of confirmations and then at most one termination; for a select, at most one frame. */
  ghost predicate IsWord(isSelect: bool, w: seq<Frame>) {
    if isSelect then |w| <= 1
    else forall i :: 0 <= i < |w| - 1 ==> w[i].kind == ActCon
  }

  ghost predicate AllConfirmations(w: seq<Frame>) {
    forall f :: f in w ==> f.kind == ActCon
  }

  ghost predicate HasNegativeConfirmation(w: seq<Frame>) {
    exists f :: f in w && f.kind == ActCon && f.negative
  }

  /** What a frame log may say about the commands of a table. */
  ghost predicate Speaks(s: State) {
    && (forall f :: f in s.sent ==>
          f.id < |s.arrived| && f.con == s.arrived[f.id].con && f.key == s.arrived[f.id].key)
    && (forall id: nat :: id < |s.arrived| ==> IsWord(s.arrived[id].isSelect, FramesOf(s.sent, id)))
    && (forall c :: c in s.pending ==> MayGoOn(c, FramesOf(s.sent, c.id)))
  }

  /** What was sent so far for a command that is still pending. */
  ghost predicate MayGoOn(c: Command, w: seq<Frame>) {
    && AllConfirmations(w)
    && (c.isSelect ==> w == [])
    && (HasNegativeConfirmation(w) ==> c.deadline == 0)
  }

  lemma NewFrame(log: seq<Frame>, f: Frame, id: nat)
    ensures FramesOf(log + [f], id) == FramesOf(log, id) + (if f.id == id then [f] else [])
    ensures f.id != id ==> FramesOf(log + [f], id) == FramesOf(log, id)
  {
  }

  lemma {:induction false} NoFrames(log: seq<Frame>, id: nat)
    requires forall f :: f in log ==> f.id != id
    ensures FramesOf(log, id) == []
  {
    if log == [] {
    } else {
      NoFrames(log[..|log| - 1], id);
    }
  }

  lemma WordGoesOn(c: Command, e: Event, w: seq<Frame>)
    requires (e.Confirm? || e.Terminate?) && MayGoOn(c, w)
    ensures IsWord(c.isSelect, w + [FeedbackFrame(c, e)])
    ensures e.Confirm? && !c.isSelect ==> MayGoOn(Confirmed(c, e.negative), w + [FeedbackFrame(c, e)])
  {
    var f := FeedbackFrame(c, e);
    assert forall g :: g in w + [f] <==> g in w || g == f;
    assert HasNegativeConfirmation(w + [f]) ==> HasNegativeConfirmation(w) || e.negative;
  }

  lemma UnmatchedFeedback(T: int, s: State, e: Event)
    requires (e.Confirm? || e.Terminate?) && FirstMatch(s.pending, e.key) == |s.pending|
    ensures Step(T, s, e) == s
  {
  }

  lemma FrameOfAddressee(c: Command, e: Event)
    requires (e.Confirm? || e.Terminate?) && c.key == e.key
    ensures var f := FeedbackFrame(c, e); f.id == c.id && f.con == c.con && f.key == c.key
    ensures e.Confirm? ==> FeedbackFrame(c, e) == Frame(c.con, c.id, c.key, ActCon, e.negative)
  {
  }

  lemma FeedbackSpeaks(T: int, s: State, e: Event)
    requires (e.Confirm? || e.Terminate?) && Origin(s) && Speaks(s)
    ensures Speaks(Step(T, s, e))
  {
    hide Step, FirstMatch, Addressee, Confirmed, IsWord, MayGoOn, FramesOf, FeedbackFrame, Ordered;
    if FirstMatch(s.pending, e.key) < |s.pending| {
      var t, c := Step(T, s, e), Addressee(s, e);
      var f := FeedbackFrame(c, e);
      FeedbackMembers(T, s, e);
      FrameOfAddressee(c, e);
      assert Traced(c, s.arrived) && MayGoOn(c, FramesOf(s.sent, c.id));
      WordGoesOn(c, e, FramesOf(s.sent, c.id));
      ConfirmedIsSame(c, e.negative);
      forall id: nat | id < |s.arrived|
        ensures IsWord(s.arrived[id].isSelect, FramesOf(t.sent, id))
      {
        NewFrame(s.sent, f, id);
      }
      forall d | d in t.pending
        ensures MayGoOn(d, FramesOf(t.sent, d.id))
      {
        NewFrame(s.sent, f, d.id);
      }
    } else {
      UnmatchedFeedback(T, s, e);
    }
  }

  lemma StepSpeaks(T: int, s: State, e: Event)
    requires Origin(s) && Speaks(s)
    ensures Speaks(Step(T, s, e))
  {
    var t := Step(T, s, e);
    if e.Arrive? {
      NoFrames(s.sent, |s.arrived|);
    } else if e.Confirm? || e.Terminate? {
      FeedbackSpeaks(T, s, e);
    } else {
      KeptMembers(s.pending, e);
    }
  }

  lemma {:induction false} RunSpeaks(T: int, es: seq<Event>)
    ensures Speaks(Run(T, EMPTY, es))
  {
    if es == [] {
    } else {
      var front := es[..|es| - 1];
      RunSpeaks(T, front);
      RunKeepsOrigin(T, front);
      StepSpeaks(T, Run(T, EMPTY, front), es[|es| - 1]);
    }
  }

  /** The frame language: over every run, what is sent for a select is at most one frame, what is
      sent for a direct command is CON* TERM?, and every frame goes to the connection that issued
      the command, under its type and addresses. */
  lemma FrameLanguage(T: int, es: seq<Event>)
    ensures var s := Run(T, EMPTY, es);
            && (forall id: nat :: id < |s.arrived| ==> IsWord(s.arrived[id].isSelect, FramesOf(s.sent, id)))
            && (forall f :: f in s.sent ==>
                  f.id < |s.arrived| && f.con == s.arrived[f.id].con && f.key == s.arrived[f.id].key)
  {
    RunSpeaks(T, es);
  }

  /** What the fields of a pending command say, in terms of the frames sent for it: it waits for
      confirmation until a frame was sent, then for termination if the last one was positive, else
      it is completed; and its deadline is the one it came with until a negative frame was sent. */
  ghost predicate FieldsFit(T: int, c: Command, w: seq<Frame>) {
    && c.phase == (if w == [] then AwaitCon else if w[|w| - 1].negative then Completed else AwaitTerm)
    && c.deadline == (if HasNegativeConfirmation(w) then 0 else NextTimeout(c.received, T))
  }

  ghost predicate AllFieldsFit(T: int, s: State) {
    forall c :: c in s.pending ==> FieldsFit(T, c, FramesOf(s.sent, c.id))
  }

  lemma ConfirmedFits(T: int, c: Command, w: seq<Frame>, negative: bool)
    requires FieldsFit(T, c, w) && !c.isSelect
    ensures FieldsFit(T, Confirmed(c, negative), w + [Frame(c.con, c.id, c.key, ActCon, negative)])
  {
    var f := Frame(c.con, c.id, c.key, ActCon, negative);
    assert f in w + [f];
    assert forall g :: g in w + [f] <==> g in w || g == f;
    assert HasNegativeConfirmation(w + [f]) <==> HasNegativeConfirmation(w) || negative;
  }

  lemma FeedbackKeepsFit(T: int, s: State, e: Event)
    requires (e.Confirm? || e.Terminate?) && Ordered(s.pending) && AllFieldsFit(T, s)
    ensures AllFieldsFit(T, Step(T, s, e))
  {
    hide Step, FirstMatch, Addressee, Confirmed, FieldsFit, FramesOf, FeedbackFrame, Ordered;
    if FirstMatch(s.pending, e.key) < |s.pending| {
      var t, c := Step(T, s, e), Addressee(s, e);
      FeedbackMembers(T, s, e);
      FrameOfAddressee(c, e);
      if e.Confirm? && !c.isSelect {
        ConfirmedFits(T, c, FramesOf(s.sent, c.id), e.negative);
        ConfirmedIsSame(c, e.negative);
      }
      forall d | d in t.pending
        ensures FieldsFit(T, d, FramesOf(t.sent, d.id))
      {
        NewFrame(s.sent, FeedbackFrame(c, e), d.id);
      }
    } else {
      UnmatchedFeedback(T, s, e);
    }
  }

  /** The fields of a pending command follow from what was sent for it, in every reachable state,
      although feedback is handled without looking at them. */
  lemma {:induction false} FieldsFollowFrames(T: int, es: seq<Event>)
    ensures AllFieldsFit(T, Run(T, EMPTY, es))
  {
    if es == [] {
    } else {
      var front, e := es[..|es| - 1], es[|es| - 1];
      var s := Run(T, EMPTY, front);
      FieldsFollowFrames(T, front);
      RunKeepsOrigin(T, front);
      if e.Confirm? || e.Terminate? {
        FeedbackKeepsFit(T, s, e);
      } else if e.Arrive? {
        RunSpeaks(T, front);
        NoFrames(s.sent, |s.arrived|);
      } else {
        KeptMembers(s.pending, e);
      }
    }
  }

  lemma GoneStaysGone(T: int, s: State, e: Event, id: nat)
    requires Ordered(s.pending) && id < |s.arrived| && forall c :: c in s.pending ==> c.id != id
    ensures id < |Step(T, s, e).arrived| && forall c :: c in Step(T, s, e).pending ==> c.id != id
    ensures FramesOf(Step(T, s, e).sent, id) == FramesOf(s.sent, id)
  {
    if e.Confirm? || e.Terminate? {
      if FirstMatch(s.pending, e.key) < |s.pending| {
        FeedbackMembers(T, s, e);
        var c := Addressee(s, e);
        ConfirmedIsSame(c, e.negative);
        hide Step, FirstMatch, Addressee, Confirmed;
        NewFrame(s.sent, FeedbackFrame(c, e), id);
      }
    } else if !e.Arrive? {
      KeptMembers(s.pending, e);
    }
  }

  /** A command that is no longer pending is never spoken about again. */
  lemma {:induction false} GoneIsSilent(T: int, es: seq<Event>, more: seq<Event>, id: nat)
    requires id < |Run(T, EMPTY, es).arrived| && forall c :: c in Run(T, EMPTY, es).pending ==> c.id != id
    ensures id < |Run(T, EMPTY, es + more).arrived|
    ensures forall c :: c in Run(T, EMPTY, es + more).pending ==> c.id != id
    ensures FramesOf(Run(T, EMPTY, es + more).sent, id) == FramesOf(Run(T, EMPTY, es).sent, id)
  {
    hide Step, FramesOf;
    if more == [] {
      assert es + more == es;
    } else {
      var front, e := more[..|more| - 1], more[|more| - 1];
      GoneIsSilent(T, es, front, id);
      assert (es + more)[..|es + more| - 1] == es + front;
      var s, t := Run(T, EMPTY, es + front), Run(T, EMPTY, es + more);
      RunKeepsOrigin(T, es + front);
      GoneStaysGone(T, s, e, id);
    }
  }

  /** Nothing follows a termination, and nothing follows a negative confirmation once a sweep at a
      positive time has run. */
  lemma NothingFollowsTheLastFrame(T: int, es: seq<Event>, now: nat, more: seq<Event>, id: nat)
    requires now > 0 && id < |Run(T, EMPTY, es).arrived|
    requires HasNegativeConfirmation(FramesOf(Run(T, EMPTY, es).sent, id))
          || !AllConfirmations(FramesOf(Run(T, EMPTY, es).sent, id))
    ensures FramesOf(Run(T, EMPTY, es + [Sweep(now)] + more).sent, id) == FramesOf(Run(T, EMPTY, es).sent, id)
    ensures !AllConfirmations(FramesOf(Run(T, EMPTY, es).sent, id)) ==>
              FramesOf(Run(T, EMPTY, es + more).sent, id) == FramesOf(Run(T, EMPTY, es).sent, id)
  {
    var s := Run(T, EMPTY, es);
    var es' := es + [Sweep(now)];
    assert es'[..|es|] == es;
    var t := Run(T, EMPTY, es');
    RunSpeaks(T, es);
    KeptMembers(s.pending, Sweep(now));
    forall c | c in t.pending
      ensures c.id != id
    {
      assert MayGoOn(c, FramesOf(s.sent, c.id));
    }
    GoneIsSilent(T, es', more, id);
    if !AllConfirmations(FramesOf(s.sent, id)) {
      forall c | c in s.pending
        ensures c.id != id
      {
        assert MayGoOn(c, FramesOf(s.sent, c.id));
      }
      GoneIsSilent(T, es, more, id);
    }
  }

  /** The frames of a direct command that is confirmed with these signs. */
  ghost predicate AreConfirmations(w: seq<Frame>, signs: seq<bool>) {
    |w| == |signs| && forall i :: 0 <= i < |w| ==> w[i].kind == ActCon && w[i].negative == signs[i]
  }

  /** A state whose only command is a direct one, the first that arrived. */
  ghost predicate IsLone(s: State, key: Key) {
    |s.pending| == 1 && s.pending[0].id == 0 && s.pending[0].key == key && !s.pending[0].isSelect
  }

  lemma FeedbackOnLone(T: int, s: State, e: Event)
    requires (e.Confirm? || e.Terminate?) && IsLone(s, e.key)
    ensures var kind := if e.Confirm? then ActCon else ActTerm;
            FramesOf(Step(T, s, e).sent, 0)
            == FramesOf(s.sent, 0) + [Frame(s.pending[0].con, 0, e.key, kind, e.negative)]
    ensures e.Confirm? ==> IsLone(Step(T, s, e), e.key)
  {
    hide Confirmed;
    assert FirstMatch(s.pending, e.key) == 0;
    NewFrame(s.sent, FeedbackFrame(s.pending[0], e), 0);
    ConfirmedIsSame(s.pending[0], e.negative);
  }

  lemma ArrivesAlone(T: int, con: Connection, key: Key, now: nat)
    ensures var s := Run(T, EMPTY, [Arrive(con, key, false, now)]); IsLone(s, key) && FramesOf(s.sent, 0) == []
  {
    assert [Arrive(con, key, false, now)][..0] == [];
  }

  /** The language is exact: for a direct command every sequence of positive and negative confirmations,
      with or without a termination of either sign, is what some run sends. */
  lemma {:induction false} EveryWordOccurs(T: int, con: Connection, key: Key, now: nat, signs: seq<bool>, last: bool)
    returns (es: seq<Event>)
    ensures AreConfirmations(FramesOf(Run(T, EMPTY, es).sent, 0), signs) && IsLone(Run(T, EMPTY, es), key)
    ensures var w := FramesOf(Run(T, EMPTY, es + [Terminate(key, last)]).sent, 0);
            |w| == |signs| + 1 && AreConfirmations(w[..|signs|], signs)
            && w[|signs|].kind == ActTerm && w[|signs|].negative == last
  {
    if signs == [] {
      es := [Arrive(con, key, false, now)];
      ArrivesAlone(T, con, key, now);
    } else {
      hide Step, FramesOf, IsLone;
      var sign := signs[|signs| - 1];
      var shorter := EveryWordOccurs(T, con, key, now, signs[..|signs| - 1], last);
      es := shorter + [Confirm(key, sign)];
      assert es[..|es| - 1] == shorter;
      FeedbackOnLone(T, Run(T, EMPTY, shorter), Confirm(key, sign));
    }
    hide Step, FramesOf;
    assert (es + [Terminate(key, last)])[..|es|] == es;
    FeedbackOnLone(T, Run(T, EMPTY, es), Terminate(key, last));
    var w := FramesOf(Run(T, EMPTY, es).sent, 0);
    assert FramesOf(Run(T, EMPTY, es + [Terminate(key, last)]).sent, 0)[..|signs|] == w;
  }
}
