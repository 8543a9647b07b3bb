/** The command object and the table of them, as the server keeps them: a vector that is changed
    in place and searched from its oldest end. */
module OutstandingCommands {
  import opened Machine
  import opened PendingSpec

  /** A command that waits for feedback from the south side. */
  class OutstandingCommand {
    const connection: Connection
    const key: Key
    const isSelect: bool
    const receivedTime: nat
    var nextTimeout: nat
    var state: int  // 0 - completed, 1 - waiting for ACT-CON, 2 - waiting for ACT-TERM
    ghost const id: nat

    /** The command as a value. */
    ghost function View(): Command
      reads this
    {
      Command(id, connection, key, isSelect, receivedTime, nextTimeout,
              if state == 1 then AwaitCon else if state == 2 then AwaitTerm else Completed)
    }

    constructor (connection: Connection, key: Key, isSelect: bool, execTimeout: int, now: nat, ghost id: nat)
      ensures View() == NewCommand(id, connection, key, isSelect, now, execTimeout)
    {
      this.connection := connection;
      this.key := key;
      this.isSelect := isSelect;
      this.receivedTime := now;
      this.nextTimeout := (now + ToInt32(execTimeout * 1000)) % TWO_64;
      this.state := 1;
      this.id := id;
    }

    predicate IsMatching(key: Key) {
      this.key == key
    }

    predicate IsSentFromConnection(connection: Connection) {
      this.connection == connection
    }

    predicate HasTimedOut(now: nat)
      reads this
    {
      now > nextTimeout
    }

    method SendActCon(negative: bool) returns (ghost frame: Frame)
      modifies this
      ensures View() == Confirmed(old(View()), negative)
      ensures frame == Frame(connection, id, key, ActCon, negative)
    {
      frame := Frame(connection, id, key, ActCon, negative);
      if !negative && !isSelect {
        state := 2;
      } else {
        nextTimeout := 0;
        state := 0;
      }
    }

    method SendActTerm(negative: bool) returns (ghost frame: Frame)
      modifies this
      ensures View() == old(View()).(deadline := 0, phase := Completed)
      ensures frame == Frame(connection, id, key, ActTerm, negative)
    {
      frame := Frame(connection, id, key, ActTerm, negative);
      nextTimeout := 0;
      state := 0;
    }
  }

  /** The vector of command objects as a sequence of values. */
  ghost function Views(cs: seq<OutstandingCommand>): (vs: seq<Command>)
    reads cs
    ensures |vs| == |cs|
    ensures forall i :: 0 <= i < |cs| ==> vs[i] == cs[i].View()
  {
    seq(|cs|, i requires 0 <= i < |cs| reads cs => cs[i].View())
  }

  lemma ViewsWithout(cs: seq<OutstandingCommand>, i: nat)
    requires i < |cs|
    ensures Views(Without(cs, i)) == Without(Views(cs), i)
  {
  }

  /** The server's vector of outstanding commands. */
  class CommandTable {
    const execTimeout: int
    var commands: seq<OutstandingCommand>
    ghost var arrived: seq<Command>
    ghost var removed: seq<Removal>
    ghost var sent: seq<Frame>

    /** No command object is in the vector twice. */
    ghost predicate Valid()
      reads this
    {
      forall i, j :: 0 <= i < j < |commands| ==> commands[i] != commands[j]
    }

    /** The table and its logs as a value. */
    ghost function Abs(): State
      reads this, commands
    {
      State(Views(commands), arrived, removed, sent)
    }

    /** What is not written stays. */
    twostate lemma Stays()
      requires unchanged(this, old(commands))
      ensures Abs() == old(Abs()) && Valid() == old(Valid()) && commands == old(commands)
    {
    }

    constructor (execTimeout: int)
      ensures Valid() && commands == [] && this.execTimeout == execTimeout
      ensures Abs() == EMPTY
    {
      this.execTimeout := execTimeout;
      commands, arrived, removed, sent := [], [], [], [];
    }

    method AddToOutstandingCommands(connection: Connection, key: Key, isSelect: bool, now: nat)
      requires Valid()
      modifies this
      ensures Valid() && forall c :: c in commands ==> c in old(commands) || fresh(c)
      ensures Abs() == Step(execTimeout, old(Abs()), Arrive(connection, key, isSelect, now))
    {
      var c := new OutstandingCommand(connection, key, isSelect, execTimeout, now, |arrived|);
      commands := commands + [c];
      arrived := arrived + [c.View()];
    }

    method HandleActCon(key: Key, negative: bool)
      requires Valid()
      modifies this, commands
      ensures Valid() && forall c :: c in commands ==> c in old(commands)
      ensures Abs() == Step(execTimeout, old(Abs()), Confirm(key, negative))
    {
      var i := 0;
      while i < |commands|
        invariant i <= |commands| && unchanged(this) && unchanged(commands)
        invariant forall j :: 0 <= j < i ==> commands[j].key != key
      {
        if commands[i].IsMatching(key) {
          ConfirmAt(i, key, negative);
          return;
        }
        i := i + 1;
      }
    }

    method HandleActTerm(key: Key, negative: bool)
      requires Valid()
      modifies this, commands
      ensures Valid() && forall c :: c in commands ==> c in old(commands)
      ensures Abs() == Step(execTimeout, old(Abs()), Terminate(key, negative))
    {
      var i := 0;
      while i < |commands|
        invariant i <= |commands| && unchanged(this) && unchanged(commands)
        invariant forall j :: 0 <= j < i ==> commands[j].key != key
      {
        if commands[i].IsMatching(key) {
          TerminateAt(i, key, negative);
          return;
        }
        i := i + 1;
      }
    }

    /** The body of `HandleActCon` once the iterator stands on the oldest match. */
    method ConfirmAt(i: nat, key: Key, negative: bool)
      requires Valid() && i < |commands| && i == FirstMatch(Views(commands), key)
      modifies `commands, `removed, `sent, commands[i]
      ensures Valid() && forall c :: c in commands ==> c in old(commands)
      ensures Abs() == Step(execTimeout, old(Abs()), Confirm(key, negative))
    {
      hide FirstMatch;
      ghost var was := Views(commands);
      var c := commands[i];
      ghost var frame := c.SendActCon(negative);
      sent := sent + [frame];
      assert Views(commands) == was[i := Confirmed(was[i], negative)];
      if c.isSelect {
        removed := removed + [Removal(c.id, SelectConfirmed)];
        ViewsWithout(commands, i);
        assert Without(Views(commands), i) == Without(was, i);
        commands := Without(commands, i);
      }
    }

    /** The body of `HandleActTerm` once the iterator stands on the oldest match. */
    method TerminateAt(i: nat, key: Key, negative: bool)
      requires Valid() && i < |commands| && i == FirstMatch(Views(commands), key)
      modifies `commands, `removed, `sent, commands[i]
      ensures Valid() && forall c :: c in commands ==> c in old(commands)
      ensures Abs() == Step(execTimeout, old(Abs()), Terminate(key, negative))
    {
      hide FirstMatch;
      ghost var was := Views(commands);
      var c := commands[i];
      ghost var frame := c.SendActTerm(negative);
      sent := sent + [frame];
      removed := removed + [Removal(c.id, Terminated)];
      ViewsWithout(commands, i);
      assert Without(Views(commands), i) == Without(was, i);
      commands := Without(commands, i);
    }

    /** The sweep of the monitoring thread. */
    method RemoveTimedOut(now: nat)
      requires Valid()
      modifies `commands, `removed
      ensures Valid() && forall c :: c in commands ==> c in old(commands)
      ensures Abs() == Step(execTimeout, old(Abs()), Sweep(now))
    {
      hide EraseLoop;
      ghost var was, done := Views(commands), 0;
      var i := 0;
      EraseStarts(Sweep(now));
      while i < |commands|
        invariant i <= |commands|
        invariant EraseLoop(old(commands), was, old(removed), Sweep(now), i, done)
        decreases |commands| - i
      {
        AtIterator(old(commands), was, old(removed), Sweep(now), i, done);
        if commands[i].HasTimedOut(now) {
          Erase(i, old(commands), was, old(removed), Sweep(now), done);
        } else {
          EraseSkips(old(commands), was, old(removed), Sweep(now), i, done);
          i := i + 1;
        }
        done := done + 1;
      }
      EraseEnds(old(commands), was, old(removed), Sweep(now), done);
    }

    method RemoveOutstandingCommands(connection: Connection)
      requires Valid()
      modifies `commands, `removed
      ensures Valid() && forall c :: c in commands ==> c in old(commands)
      ensures Abs() == Step(execTimeout, old(Abs()), Lose(connection))
    {
      hide EraseLoop;
      ghost var was, done := Views(commands), 0;
      var i := 0;
      EraseStarts(Lose(connection));
      while i < |commands|
        invariant i <= |commands|
        invariant EraseLoop(old(commands), was, old(removed), Lose(connection), i, done)
        decreases |commands| - i
      {
        AtIterator(old(commands), was, old(removed), Lose(connection), i, done);
        if commands[i].IsSentFromConnection(connection) {
          Erase(i, old(commands), was, old(removed), Lose(connection), done);
        } else {
          EraseSkips(old(commands), was, old(removed), Lose(connection), i, done);
          i := i + 1;
        }
        done := done + 1;
      }
      EraseEnds(old(commands), was, old(removed), Lose(connection), done);
    }

    method RemoveAllOutstandingCommands()
      requires Valid()
      modifies `commands, `removed
      ensures Valid() && commands == []
      ensures Abs() == Step(execTimeout, old(Abs()), RemoveAll)
    {
      hide EraseLoop;
      ghost var was, done := Views(commands), 0;
      EraseStarts(RemoveAll);
      while |commands| > 0
        invariant EraseLoop(old(commands), was, old(removed), RemoveAll, 0, done)
        decreases |commands|
      {
        AtIterator(old(commands), was, old(removed), RemoveAll, 0, done);
        Erase(0, old(commands), was, old(removed), RemoveAll, done);
        done := done + 1;
      }
      EraseEnds(old(commands), was, old(removed), RemoveAll, done);
    }

    /** State of an erasing loop: of the `done` commands seen so far the kept ones are in front of
        the iterator `i`, the others are still behind it. */
    ghost predicate EraseLoop(before: seq<OutstandingCommand>, was: seq<Command>, removedBefore: seq<Removal>,
                              e: Event, i: nat, done: nat)
      reads this, before, commands
    {
      && Valid()
      && done <= |before| == |was|
      && was == Views(before)
      && i <= |commands|
      && commands[i..] == before[done..]
      && (forall c :: c in commands ==> c in before)
      && Views(commands[..i]) == Kept(was[..done], e)
      && removed == removedBefore + Dropped(was[..done], e)
    }

    lemma EraseStarts(e: Event)
      requires Valid()
      ensures EraseLoop(commands, Views(commands), removed, e, 0, 0)
    {
      assert Views(commands)[..0] == [] && Views(commands[..0]) == [];
    }

    lemma AtIterator(before: seq<OutstandingCommand>, was: seq<Command>, removedBefore: seq<Removal>,
                     e: Event, i: nat, done: nat)
      requires EraseLoop(before, was, removedBefore, e, i, done) && i < |commands|
      ensures done < |was| && commands[i] == before[done] && commands[i].View() == was[done]
    {
      assert commands[i] == commands[i..][0];
    }

    lemma EraseSkips(before: seq<OutstandingCommand>, was: seq<Command>, removedBefore: seq<Removal>,
                     e: Event, i: nat, done: nat)
      requires EraseLoop(before, was, removedBefore, e, i, done)
      requires i < |commands| && !Drops(e, commands[i].View())
      ensures EraseLoop(before, was, removedBefore, e, i + 1, done + 1)
    {
      AtIterator(before, was, removedBefore, e, i, done);
      assert was[..done + 1][..done] == was[..done];
      assert Views(commands[..i + 1]) == Views(commands[..i]) + [was[done]];
    }

    method Erase(i: nat, ghost before: seq<OutstandingCommand>, ghost was: seq<Command>,
                 ghost removedBefore: seq<Removal>, ghost e: Event, ghost done: nat)
      requires EraseLoop(before, was, removedBefore, e, i, done)
      requires i < |commands| && Drops(e, commands[i].View())
      modifies `commands, `removed
      ensures EraseLoop(before, was, removedBefore, e, i, done + 1)
      ensures |commands| == old(|commands|) - 1 && i <= |commands|
    {
      AtIterator(before, was, removedBefore, e, i, done);
      assert was[..done + 1][..done] == was[..done];
      removed := removed + [Removal(commands[i].id, CauseOf(e))];
      commands := Without(commands, i);
      assert commands[..i] == old(commands)[..i] && commands[i..] == old(commands)[i + 1..];
    }

    lemma EraseEnds(before: seq<OutstandingCommand>, was: seq<Command>, removedBefore: seq<Removal>,
                    e: Event, done: nat)
      requires EraseLoop(before, was, removedBefore, e, |commands|, done)
      ensures Valid() && forall c :: c in commands ==> c in before
      ensures Views(commands) == Kept(was, e) && removed == removedBefore + Dropped(was, e)
    {
      assert |commands[|commands|..]| == 0;
      assert was[..done] == was && commands[..|commands|] == commands;
    }
  }
}
