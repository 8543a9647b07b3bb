/** What feedback from the south side does to the whole server, over the attributes of the data object
    that brings it. */
module FeedbackTheorems {
  import opened Machine
  import opened ProcessImage
  import opened ServerSpec
  import opened ServerTheorems
  import PendingSpec
  import SouthReadings
  import Terms

  /** A data object taken while the protocol server runs, with this cause, for commands of this type and
      these addresses. */
  ghost predicate IsFeedbackFor(e: Event, cot: int, key: PendingSpec.Key) {
    && e.SouthDatapoint? && e.slaveRunning && e.point.DataObjectPoint?
    && Terms.CotIs(e.point.attributes, cot) && Terms.TypeIs(e.point.attributes, key.typeId)
    && Terms.CaIs(e.point.attributes, key.ca) && Terms.IoaIs(e.point.attributes, key.ioa)
  }

  /** Its sign. */
  ghost predicate IsNegative(e: Event)
    requires e.SouthDatapoint? && e.point.DataObjectPoint?
  {
    Terms.Says(e.point.attributes, SouthReadings.Negative)
  }

  /** The place of the oldest pending command of a key, or the end of the table. */
  ghost predicate IsOldest(p: seq<PendingSpec.Command>, key: PendingSpec.Key, i: nat) {
    i <= |p| && (i < |p| ==> p[i].key == key) && forall j :: 0 <= j < i ==> p[j].key != key
  }

  lemma FeedbackIsCollected(e: Event, cot: int, key: PendingSpec.Key)
    requires IsFeedbackFor(e, cot, key)
    ensures ObjectOf(e).Some?
    ensures var obj := ObjectOf(e).value;
            && obj.cot == cot && obj.typeId == key.typeId && obj.ca == key.ca && obj.ioa == key.ioa
            && (obj.negative <==> IsNegative(e))
  {
    Terms.CollectedIs(e.point.attributes);
    Terms.CollectedAs(e.point.attributes, key.ca, key.ioa, cot, key.typeId);
    hide SouthReadings.Collected, Terms.CotIs, Terms.TypeIs, Terms.CaIs, Terms.IoaIs, Terms.Says;
  }

  /** A feedback step changes the table of commands only. */
  lemma FeedbackStep(cfg: Config, s: State, e: Event, cot: int, key: PendingSpec.Key)
    requires IsFeedbackFor(e, cot, key) && (cot == 7 || cot == 10)
    ensures var event := if cot == 7 then PendingSpec.Confirm(key, IsNegative(e))
                         else PendingSpec.Terminate(key, IsNegative(e));
            Step(cfg, s, e) == s.(pending := PendingSpec.Step(cfg.gate.execTimeout, s.pending, event))
  {
    FeedbackIsCollected(e, cot, key);
    hide SouthReadings.Collected, PendingSpec.Step, IsNegative, IsFeedbackFor;
    assert IsFeedback(ObjectOf(e).value);
    assert e.SouthDatapoint? && e.point.DataObjectPoint?;
  }

  lemma OldestIsFirstMatch(p: seq<PendingSpec.Command>, key: PendingSpec.Key, i: nat)
    requires IsOldest(p, key, i)
    ensures PendingSpec.FirstMatch(p, key) == i
  {
  }

  /** A termination reaches the table: the oldest command of its type and addresses is removed, and no
      other, and one ACT-TERM of the same sign goes to its connection. With no such command nothing
      changes. */
  lemma TerminationReaches(cfg: Config, s: State, e: Event, key: PendingSpec.Key, i: nat)
    requires IsFeedbackFor(e, 10, key) && IsOldest(s.pending.pending, key, i)
    ensures var p := s.pending.pending;
            Step(cfg, s, e)
            == if i == |p| then s
               else s.(pending := s.pending.(
                      pending := p[..i] + p[i + 1..],
                      removed := s.pending.removed + [PendingSpec.Removal(p[i].id, PendingSpec.Terminated)],
                      sent := s.pending.sent
                              + [PendingSpec.Frame(p[i].con, p[i].id, key, PendingSpec.ActTerm, IsNegative(e))]))
  {
    FeedbackStep(cfg, s, e, 10, key);
    OldestIsFirstMatch(s.pending.pending, key, i);
    hide Step, IsFeedbackFor, IsNegative, PendingSpec.FirstMatch;
  }

  /** A confirmation reaches the table: the oldest command of its type and addresses is removed if it is
      a select and otherwise waits for its termination, or is completed if the sign is negative; one
      ACT-CON of the same sign goes to its connection; no other command changes. */
  lemma ConfirmationReaches(cfg: Config, s: State, e: Event, key: PendingSpec.Key, i: nat)
    requires IsFeedbackFor(e, 7, key) && IsOldest(s.pending.pending, key, i)
    ensures var p, n := s.pending.pending, IsNegative(e);
            if i == |p| then Step(cfg, s, e) == s
            else
              var sent := s.pending.sent + [PendingSpec.Frame(p[i].con, p[i].id, key, PendingSpec.ActCon, n)];
              Step(cfg, s, e)
              == if p[i].isSelect then
                   s.(pending := s.pending.(
                     pending := p[..i] + p[i + 1..], sent := sent,
                     removed := s.pending.removed + [PendingSpec.Removal(p[i].id, PendingSpec.SelectConfirmed)]))
                 else
                   s.(pending := s.pending.(
                     pending := p[i := if n then p[i].(phase := PendingSpec.Completed, deadline := 0)
                                       else p[i].(phase := PendingSpec.AwaitTerm)],
                     sent := sent))
  {
    FeedbackStep(cfg, s, e, 7, key);
    OldestIsFirstMatch(s.pending.pending, key, i);
    hide Step, IsFeedbackFor, IsNegative, PendingSpec.FirstMatch;
  }

  /** While the protocol server does not run no data object changes anything. */
  lemma NothingWhileStopped(cfg: Config, s: State, e: Event)
    requires e.SouthDatapoint? && !e.slaveRunning && !e.point.SouthEventPoint?
    ensures Step(cfg, s, e) == s
  {
  }
}
