/** All that one received command is told, over whole runs of the server: its immediate answer and the
    frames sent for its entry, in one language. */
module CommandStories {
  import opened Machine
  import opened Protocol
  import opened ProcessImage
  import opened ServerSpec
  import opened ServerTheorems
  import opened GateTheorems
  import FeedbackTheorems
  import PendingRuns
  import PendingSpec
  import Terms

  /** The command received at place `n` of a run was refused: one negative answer, no operation, and
      no entry that a frame could be sent for. */
  ghost predicate WasRefused(cfg: Config, s: State, es: seq<Event>, n: nat)
    requires n < |es| && es[n].CommandReceived?
  {
    var before, after := Run(cfg, s, es[..n]), Run(cfg, s, es[..n + 1]);
    && (exists r :: after.replies == before.replies + [r] && IsReplyTo(cfg, before, es[n], r))
    && after.operations == before.operations && after.pending == before.pending
  }

  /** It was forwarded, as entry `id`: nothing was sent for that entry before; if the operation failed
      there is one negative answer at once; and what is sent for the entry in the rest of the run is a
      word of CON* TERM?, or at most one frame for a select, to the command's connection. */
  ghost predicate WasForwarded(cfg: Config, s: State, es: seq<Event>, n: nat, id: nat)
    requires n < |es| && es[n].CommandReceived? && es[n].command.io.Some?
  {
    var before, after, last := Run(cfg, s, es[..n]), Run(cfg, s, es[..n + 1]), Run(cfg, s, es);
    && (if es[n].result > 0 then after.replies == before.replies
        else exists r :: after.replies == before.replies + [r] && IsReplyTo(cfg, before, es[n], r))
    && PendingRuns.FramesOf(after.pending.sent, id) == []
    && id < |last.pending.arrived|
    && last.pending.arrived[id].con == es[n].con && last.pending.arrived[id].key == KeyOf(es[n].command)
    && PendingRuns.IsWord(last.pending.arrived[id].isSelect, PendingRuns.FramesOf(last.pending.sent, id))
    && forall f :: f in PendingRuns.FramesOf(last.pending.sent, id) ==>
         f.con == es[n].con && f.key == KeyOf(es[n].command)
  }

  lemma {:induction false} ArrivalsOnlyGrow(cfg: Config, s: State, es: seq<Event>, n: nat)
    requires n <= |es|
    ensures Run(cfg, s, es[..n]).pending.arrived <= Run(cfg, s, es).pending.arrived
    decreases |es|
  {
    hide Step;
    if n == |es| {
      assert es[..n] == es;
    } else {
      var front, e := es[..|es| - 1], es[|es| - 1];
      assert front[..n] == es[..n];
      ArrivalsOnlyGrow(cfg, s, front, n);
      ServerRemovalsAreJustified(cfg, Run(cfg, s, front), e);
    }
  }

  lemma {:induction false} FramesAreOfLog(log: seq<PendingSpec.Frame>, id: nat)
    ensures forall f :: f in PendingRuns.FramesOf(log, id) ==> f in log && f.id == id
  {
    if log != [] {
      FramesAreOfLog(log[..|log| - 1], id);
    }
  }

  /** What a run knows of the frames sent for one entry. */
  lemma EntryIsSpokenTo(cfg: Config, s: State, es: seq<Event>, id: nat)
    requires IsInitial(s) && id < |Run(cfg, s, es).pending.arrived|
    ensures var t := Run(cfg, s, es).pending;
            && PendingRuns.IsWord(t.arrived[id].isSelect, PendingRuns.FramesOf(t.sent, id))
            && forall f :: f in PendingRuns.FramesOf(t.sent, id) ==>
                 f.con == t.arrived[id].con && f.key == t.arrived[id].key
  {
    hide Run, PendingRuns.FramesOf, PendingRuns.IsWord, PendingSpec.Run, PendingEvents;
    PendingIsARun(cfg, s, es);
    PendingRuns.FrameLanguage(cfg.gate.execTimeout, PendingEvents(cfg, s, es));
    FramesAreOfLog(Run(cfg, s, es).pending.sent, id);
  }

  /** Nothing is sent for an entry before it exists. */
  lemma NothingSentBefore(cfg: Config, s: State, es: seq<Event>)
    requires IsInitial(s)
    ensures var t := Run(cfg, s, es).pending; PendingRuns.FramesOf(t.sent, |t.arrived|) == []
  {
    hide Run, PendingRuns.FramesOf, PendingSpec.Run, PendingEvents;
    PendingIsARun(cfg, s, es);
    PendingRuns.FrameLanguage(cfg.gate.execTimeout, PendingEvents(cfg, s, es));
    var t := Run(cfg, s, es).pending;
    PendingRuns.NoFrames(t.sent, |t.arrived|);
  }

  /** What the step itself does to the table. */
  lemma TableOfCommandStep(cfg: Config, s: State, e: Event)
    requires e.CommandReceived? && Terms.IsCommandType(e.command.typeId)
    ensures var t := Step(cfg, s, e).pending;
            if IsPassed(cfg, s, e) then
              t.sent == s.pending.sent && |t.arrived| == |s.pending.arrived| + 1
              && t.arrived[|s.pending.arrived|].con == e.con && t.arrived[|s.pending.arrived|].key == KeyOf(e.command)
            else t == s.pending
  {
    ForwardsIff(cfg, s, e);
    Terms.TypesByNumber(e.command.typeId, SP, true);
    hide VerdictOn, ReachesTable, IsPassed;
  }

  lemma RefusedIsTold(cfg: Config, s: State, es: seq<Event>, n: nat)
    requires n < |es| && es[n].CommandReceived? && Terms.IsCommandType(es[n].command.typeId)
    requires !IsPassed(cfg, Run(cfg, s, es[..n]), es[n])
    ensures WasRefused(cfg, s, es, n)
  {
    RunAt(cfg, s, es, n);
    hide Step, Run, IsPassed, IsReplyTo;
    CommandIsAnsweredOnce(cfg, Run(cfg, s, es[..n]), es[n]);
    TableOfCommandStep(cfg, Run(cfg, s, es[..n]), es[n]);
  }

  /** The frames for the entry that a passed command makes, over the rest of the run. */
  lemma EntryIsTold(cfg: Config, s: State, es: seq<Event>, n: nat)
    requires IsInitial(s) && n < |es| && es[n].CommandReceived? && Terms.IsCommandType(es[n].command.typeId)
    requires IsPassed(cfg, Run(cfg, s, es[..n]), es[n]) && es[n].command.io.Some?
    ensures var after, last, id := Run(cfg, s, es[..n + 1]), Run(cfg, s, es),
                                   |Run(cfg, s, es[..n]).pending.arrived|;
            && PendingRuns.FramesOf(after.pending.sent, id) == []
            && id < |last.pending.arrived|
            && last.pending.arrived[id].con == es[n].con && last.pending.arrived[id].key == KeyOf(es[n].command)
            && PendingRuns.IsWord(last.pending.arrived[id].isSelect, PendingRuns.FramesOf(last.pending.sent, id))
            && forall f :: f in PendingRuns.FramesOf(last.pending.sent, id) ==>
                 f.con == es[n].con && f.key == KeyOf(es[n].command)
  {
    RunAt(cfg, s, es, n);
    hide Step, Run, IsPassed, IsInitial, PendingRuns.FramesOf, PendingRuns.IsWord, KeyOf;
    TableOfCommandStep(cfg, Run(cfg, s, es[..n]), es[n]);
    NothingSentBefore(cfg, s, es[..n]);
    ArrivalsOnlyGrow(cfg, s, es, n + 1);
    EntryIsSpokenTo(cfg, s, es, |Run(cfg, s, es[..n]).pending.arrived|);
  }

  lemma ForwardedIsTold(cfg: Config, s: State, es: seq<Event>, n: nat)
    requires IsInitial(s) && n < |es| && es[n].CommandReceived? && Terms.IsCommandType(es[n].command.typeId)
    requires IsPassed(cfg, Run(cfg, s, es[..n]), es[n]) && es[n].command.io.Some?
    ensures WasForwarded(cfg, s, es, n, |Run(cfg, s, es[..n]).pending.arrived|)
  {
    EntryIsTold(cfg, s, es, n);
    RunAt(cfg, s, es, n);
    hide Step, Run, IsPassed, IsReplyTo, IsInitial, PendingRuns.FramesOf, PendingRuns.IsWord, KeyOf;
    CommandIsAnsweredOnce(cfg, Run(cfg, s, es[..n]), es[n]);
  }

  lemma RunAt(cfg: Config, s: State, es: seq<Event>, n: nat)
    requires n < |es|
    ensures Run(cfg, s, es[..n + 1]) == Step(cfg, Run(cfg, s, es[..n]), es[n])
  {
    hide Step;
    assert es[..n + 1][..n] == es[..n];
  }

  /** Every supported command of a run is refused or forwarded, and is told accordingly: one negative
      answer; or CON* TERM?, behind one negative answer if the operation failed. */
  lemma EveryCommandIsTold(cfg: Config, s: State, es: seq<Event>, n: nat)
    requires IsInitial(s) && n < |es| && es[n].CommandReceived? && Terms.IsCommandType(es[n].command.typeId)
    ensures if IsPassed(cfg, Run(cfg, s, es[..n]), es[n])
            then es[n].command.io.Some? && WasForwarded(cfg, s, es, n, |Run(cfg, s, es[..n]).pending.arrived|)
            else WasRefused(cfg, s, es, n)
  {
    hide Run, IsInitial, WasForwarded, WasRefused, IsPassed;
    if IsPassed(cfg, Run(cfg, s, es[..n]), es[n]) {
      PassedHasObject(cfg, Run(cfg, s, es[..n]), es[n]);
      ForwardedIsTold(cfg, s, es, n);
    } else {
      RefusedIsTold(cfg, s, es, n);
    }
  }

  lemma PassedHasObject(cfg: Config, s: State, e: Event)
    requires e.CommandReceived? && IsPassed(cfg, s, e)
    ensures e.command.io.Some?
  {
  }

  /** A command whose operation failed can still be confirmed: from any state where no command of its
      key is pending, the negative answer and then the confirmation go to the same connection. */
  lemma FailedCommandIsConfirmed(cfg: Config, s: State, command: Event, feedback: Event)
    requires command.CommandReceived? && IsPassed(cfg, s, command) && command.result <= 0 && command.command.io.Some?
    requires forall c :: c in s.pending.pending ==> c.key != KeyOf(command.command)
    requires FeedbackTheorems.IsFeedbackFor(feedback, 7, KeyOf(command.command))
    ensures var t, u := Step(cfg, s, command), Step(cfg, Step(cfg, s, command), feedback);
            && (exists r :: t.replies == s.replies + [r] && IsReplyTo(cfg, s, command, r) && r.cot == 7)
            && exists f :: u.pending.sent == s.pending.sent + [f] && f.con == command.con
                           && f.kind == PendingSpec.ActCon && (f.negative <==> FeedbackTheorems.IsNegative(feedback))
  {
    CommandIsAnsweredOnce(cfg, s, command);
    var t := Step(cfg, s, command);
    var c := PendingAfter(cfg, s, command);
    var p := s.pending.pending;
    assert FeedbackTheorems.IsOldest(t.pending.pending, c.key, |p|) by {
      assert forall k :: 0 <= k < |p| ==> t.pending.pending[k] == p[k] && p[k] in p;
    }
    FeedbackTheorems.ConfirmationReaches(cfg, t, feedback, c.key, |p|);
    hide Step, IsPassed, IsReplyTo, FeedbackTheorems.IsFeedbackFor, FeedbackTheorems.IsNegative;
    var f := PendingSpec.Frame(c.con, c.id, c.key, PendingSpec.ActCon, FeedbackTheorems.IsNegative(feedback));
    assert Step(cfg, t, feedback).pending.sent == s.pending.sent + [f];
  }

  lemma PendingAfter(cfg: Config, s: State, e: Event) returns (c: PendingSpec.Command)
    requires e.CommandReceived? && IsPassed(cfg, s, e) && e.command.io.Some?
    ensures var t := Step(cfg, s, e).pending;
            && t.pending == s.pending.pending + [c] && t.sent == s.pending.sent
            && c.con == e.con && c.key == KeyOf(e.command)
  {
    CommandIsAnsweredOnce(cfg, s, e);
    TableOfCommandStep(cfg, s, e);
    hide Step, IsPassed;
    c := Step(cfg, s, e).pending.pending[|s.pending.pending|];
    assert Step(cfg, s, e).pending.pending == s.pending.pending + [c];
  }
}
