/** The vector of outstanding commands refines a simpler thing: one first-in first-out queue per
    (type, common address, object address). */
module PendingQueues {
  import opened PendingSpec

  datatype Queues = Queues(queues: map<Key, seq<Command>>, arrivals: nat, sent: seq<Frame>)

  const NO_QUEUES := Queues(map[], 0, [])

  function QueueOf(q: Queues, key: Key): seq<Command> {
    if key in q.queues then q.queues[key] else []
  }

  /** The abstract step. It looks at the head of one queue and at nothing else; only the removal of
      a connection's commands, the sweep and the shutdown touch every queue. */
  function QueueStep(execTimeout: int, q: Queues, e: Event): Queues {
    match e
    case Arrive(con, key, isSelect, now) =>
      var c := NewCommand(q.arrivals, con, key, isSelect, now, execTimeout);
      Queues(q.queues[key := QueueOf(q, key) + [c]], q.arrivals + 1, q.sent)
    case Confirm(key, negative) =>
      var queue := QueueOf(q, key);
      if queue == [] then q
      else
        var head := queue[0];
        var queue' := if head.isSelect then queue[1..] else [Confirmed(head, negative)] + queue[1..];
        q.(queues := q.queues[key := queue'],
           sent := q.sent + [Frame(head.con, head.id, key, ActCon, negative)])
    case Terminate(key, negative) =>
      var queue := QueueOf(q, key);
      if queue == [] then q
      else
        var head := queue[0];
        q.(queues := q.queues[key := queue[1..]],
           sent := q.sent + [Frame(head.con, head.id, key, ActTerm, negative)])
    case _ =>
      q.(queues := map key | key in q.queues :: Kept(q.queues[key], e))
  }

  function QueueRun(execTimeout: int, q: Queues, es: seq<Event>): Queues {
    if es == [] then q
    else QueueStep(execTimeout, QueueRun(execTimeout, q, es[..|es| - 1]), es[|es| - 1])
  }

  /** The commands of one key, in the order of the vector. */
  function OfKey(p: seq<Command>, key: Key): seq<Command> {
    if p == [] then []
    else OfKey(p[..|p| - 1], key) + (if p[|p| - 1].key == key then [p[|p| - 1]] else [])
  }

  /** The vector and the queues say the same. */
  ghost predicate Refines(s: State, q: Queues) {
    && (forall key :: OfKey(s.pending, key) == QueueOf(q, key))
    && |s.arrived| == q.arrivals
    && s.sent == q.sent
  }

  lemma {:induction false} OfKeyAppend(a: seq<Command>, b: seq<Command>, key: Key)
    ensures OfKey(a + b, key) == OfKey(a, key) + OfKey(b, key)
  {
    if b == [] {
      assert a + b == a;
    } else {
      var front := b[..|b| - 1];
      assert (a + b)[..|a + b| - 1] == a + front;
      OfKeyAppend(a, front, key);
    }
  }

  lemma {:induction false} OfOtherKeys(p: seq<Command>, key: Key)
    requires forall c :: c in p ==> c.key != key
    ensures OfKey(p, key) == []
  {
    if p == [] {
    } else {
      OfOtherKeys(p[..|p| - 1], key);
    }
  }

  /** The vector around its oldest match: nothing of that key before it. */
  lemma SplitAtMatch(p: seq<Command>, key: Key, other: Key)
    ensures var i := FirstMatch(p, key);
            if i == |p| then OfKey(p, key) == []
            else
              && OfKey(p, key) == [p[i]] + OfKey(p[i + 1..], key)
              && OfKey(Without(p, i), key) == OfKey(p[i + 1..], key)
              && (forall c: Command :: c.key == key ==> OfKey(p[i := c], key) == [c] + OfKey(p[i + 1..], key))
              && (other != key ==> OfKey(Without(p, i), other) == OfKey(p, other))
              && (other != key ==> forall c: Command :: c.key == key ==> OfKey(p[i := c], other) == OfKey(p, other))
  {
    var i := FirstMatch(p, key);
    if i == |p| {
      OfOtherKeys(p, key);
    } else {
      var front, back := p[..i], p[i + 1..];
      OfOtherKeys(front, key);
      SplitAround(p, i, p[i], key);
      OfKeyAppend(front, back, key);
      forall c: Command | c.key == key
        ensures OfKey(p[i := c], key) == [c] + OfKey(back, key)
      {
        SplitAround(p, i, c, key);
      }
      if other != key {
        SplitAround(p, i, p[i], other);
        OfKeyAppend(front, back, other);
        forall c: Command | c.key == key
          ensures OfKey(p[i := c], other) == OfKey(p, other)
        {
          SplitAround(p, i, c, other);
        }
      }
    }
  }

  lemma SplitAround(p: seq<Command>, i: nat, c: Command, key: Key)
    requires i < |p|
    ensures OfKey(p[i := c], key)
         == OfKey(p[..i], key) + (if c.key == key then [c] else []) + OfKey(p[i + 1..], key)
    ensures p[i := p[i]] == p
  {
    assert p[i := c] == p[..i] + ([c] + p[i + 1..]);
    OfKeyAppend(p[..i], [c] + p[i + 1..], key);
    OfKeyAppend([c], p[i + 1..], key);
    assert [c][..0] == [];
  }

  /** Removing by a criterion commutes with taking one queue. */
  lemma {:induction false} KeptOfKey(p: seq<Command>, e: Event, key: Key)
    ensures OfKey(Kept(p, e), key) == Kept(OfKey(p, key), e)
  {
    if p == [] {
    } else {
      var front, c := p[..|p| - 1], p[|p| - 1];
      KeptOfKey(front, e, key);
      OfKeyAppend(Kept(front, e), if Drops(e, c) then [] else [c], key);
      assert [c][..0] == [];
      if c.key == key {
        assert OfKey(p, key)[..|OfKey(front, key)|] == OfKey(front, key);
      } else {
        assert OfKey(p, key) == OfKey(front, key);
      }
    }
  }

  lemma FeedbackRefines(T: int, s: State, q: Queues, e: Event)
    requires Refines(s, q) && (e.Confirm? || e.Terminate?)
    ensures Refines(Step(T, s, e), QueueStep(T, q, e))
  {
    hide OfKey, NewCommand;
    var s', q' := Step(T, s, e), QueueStep(T, q, e);
    SplitAtMatch(s.pending, e.key, e.key);
    assert OfKey(s.pending, e.key) == QueueOf(q, e.key);
    if FirstMatch(s.pending, e.key) < |s.pending| {
      hide Confirmed, Without;
      forall key
        ensures OfKey(s'.pending, key) == QueueOf(q', key)
      {
        SplitAtMatch(s.pending, e.key, key);
      }
    }
  }

  lemma ArrivalRefines(T: int, s: State, q: Queues, e: Event)
    requires Refines(s, q) && e.Arrive?
    ensures Refines(Step(T, s, e), QueueStep(T, q, e))
  {
    hide OfKey, NewCommand;
    var c := NewCommand(q.arrivals, e.con, e.key, e.isSelect, e.now, T);
    CommandKey(q.arrivals, e, T);
    forall key
      ensures OfKey(s.pending + [c], key) == QueueOf(QueueStep(T, q, e), key)
    {
      OfKeyAppend(s.pending, [c], key);
      OfOne(c, key);
    }
  }

  lemma CommandKey(id: nat, e: Event, T: int)
    requires e.Arrive?
    ensures NewCommand(id, e.con, e.key, e.isSelect, e.now, T).key == e.key
  {
  }

  lemma OfOne(c: Command, key: Key)
    ensures OfKey([c], key) == if c.key == key then [c] else []
  {
    assert [c][..0] == [] && OfKey([], key) == [];
  }

  lemma RemovalRefines(T: int, s: State, q: Queues, e: Event)
    requires Refines(s, q) && !e.Arrive? && !e.Confirm? && !e.Terminate?
    ensures Refines(Step(T, s, e), QueueStep(T, q, e))
  {
    assert Kept([], e) == [];
    hide OfKey, Kept, Dropped;
    forall key
      ensures OfKey(Kept(s.pending, e), key) == QueueOf(QueueStep(T, q, e), key)
    {
      KeptOfKey(s.pending, e, key);
    }
  }

  lemma StepRefines(T: int, s: State, q: Queues, e: Event)
    requires Refines(s, q)
    ensures Refines(Step(T, s, e), QueueStep(T, q, e))
  {
    hide Refines, Step, QueueStep;
    if e.Confirm? || e.Terminate? {
      FeedbackRefines(T, s, q, e);
    } else if e.Arrive? {
      ArrivalRefines(T, s, q, e);
    } else {
      RemovalRefines(T, s, q, e);
    }
  }

  /** Over every run the vector with its oldest-match searches and the queues with their heads
      hold the same commands and send the same frames in the same order. */
  lemma {:induction false} VectorRefinesQueues(T: int, es: seq<Event>)
    ensures Refines(Run(T, EMPTY, es), QueueRun(T, NO_QUEUES, es))
  {
    if es == [] {
    } else {
      var front := es[..|es| - 1];
      VectorRefinesQueues(T, front);
      StepRefines(T, Run(T, EMPTY, front), QueueRun(T, NO_QUEUES, front), es[|es| - 1]);
    }
  }

  /** What feedback for one key does, read off the queues: at most the head of that key's queue is
      affected, every other queue is untouched, and the frame goes to the head's connection. */
  lemma FeedbackTakesTheHead(T: int, s: State, e: Event)
    requires e.Confirm? || e.Terminate?
    ensures var t := Step(T, s, e);
            var queue, queue' := OfKey(s.pending, e.key), OfKey(t.pending, e.key);
            && (forall key :: key != e.key ==> OfKey(t.pending, key) == OfKey(s.pending, key))
            && (queue == [] ==> t == s)
            && (queue != [] ==>
                  && queue' == (if e.Confirm? && !queue[0].isSelect then [Confirmed(queue[0], e.negative)] else [])
                               + queue[1..]
                  && t.sent == s.sent + [Frame(queue[0].con, queue[0].id, e.key,
                                               if e.Confirm? then ActCon else ActTerm, e.negative)])
  {
    hide OfKey;
    SplitAtMatch(s.pending, e.key, e.key);
    if FirstMatch(s.pending, e.key) < |s.pending| {
      ConfirmedKey(s.pending[FirstMatch(s.pending, e.key)], if e.Confirm? then e.negative else false);
      hide Confirmed, Without;
      forall key | key != e.key
        ensures OfKey(Step(T, s, e).pending, key) == OfKey(s.pending, key)
      {
        SplitAtMatch(s.pending, e.key, key);
      }
    }
  }

  lemma ConfirmedKey(c: Command, negative: bool)
    ensures Confirmed(c, negative).key == c.key
  {
  }
}
