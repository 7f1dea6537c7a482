/** The pause controller: a channel with room for one state, commands that drain and refill it under
    a write lock, readers that take the state out and put it back under a read lock, and one waiter
    that takes no lock. Every interleaving of any number of commands and readers with the waiter. */
module Pause {

  datatype PauseState = Running | Paused

  datatype Channel = Empty | Full(state: PauseState)

  /** `Pause` or `Resume`, by the holder of the write lock. */
  datatype Commander = NoCommander | Locked(cmd: PauseState) | Drained(cmd: PauseState) | Sent

  /** `IsPaused`, by a holder of the read lock. */
  datatype Reader = Checking | Holding(state: PauseState) | Answered(paused: bool)

  /** The one caller of `WaitIfPaused`: outside it, in `waitUntilResumed`, or told to terminate. */
  datatype Waiter = Outside | Waiting | Terminated

  /** `last` is the latest command sent. */
  datatype Controller = Controller(
    chan: Channel,
    commander: Commander,
    readers: map<nat, Reader>,
    waiter: Waiter,
    terminate: bool,
    last: Channel)

  datatype Step =
    | Lock(cmd: PauseState)
    | Drain
    | Send
    | Unlock
    | RLock(id: nat)
    | Take(id: nat)
    | SeeEmpty(id: nat)
    | PutBack(id: nat)
    | RUnlock(id: nat)
    | WaitIfPaused       // the waiter's poll finds a state, or nothing
    | WaitReceives       // a state reaches the blocked waiter
    | WaitTerminates     // the waiter, polling or blocked, sees the termination channel
    | Terminate

  /** Sending needs an empty channel; the locks exclude commanders from readers and one another. */
  predicate Enabled(c: Controller, step: Step) {
    match step
    case Lock(_) => c.commander.NoCommander? && c.readers == map[]
    case Drain => c.commander.Locked?
    case Send => c.commander.Drained? && c.chan.Empty?
    case Unlock => c.commander.Sent?
    case RLock(id) => c.commander.NoCommander? && id !in c.readers
    case Take(id) => id in c.readers && c.readers[id].Checking? && c.chan.Full?
    case SeeEmpty(id) => id in c.readers && c.readers[id].Checking? && c.chan.Empty?
    case PutBack(id) => id in c.readers && c.readers[id].Holding? && c.chan.Empty?
    case RUnlock(id) => id in c.readers && c.readers[id].Answered?
    case WaitIfPaused => c.waiter.Outside? && (c.chan.Full? || !c.terminate)
    case WaitReceives => c.waiter.Waiting? && c.chan.Full?
    case WaitTerminates => !c.waiter.Terminated? && c.terminate
    case Terminate => true
  }

  function Do(c: Controller, step: Step): Controller
    requires Enabled(c, step)
  {
    match step
    case Lock(cmd) => c.(commander := Locked(cmd))
    case Drain => c.(chan := Empty, commander := Drained(c.commander.cmd))
    case Send => c.(chan := Full(c.commander.cmd), last := Full(c.commander.cmd), commander := Sent)
    case Unlock => c.(commander := NoCommander)
    case RLock(id) => c.(readers := c.readers[id := Checking])
    case Take(id) => c.(chan := Empty, readers := c.readers[id := Holding(c.chan.state)])
    case SeeEmpty(id) => c.(readers := c.readers[id := Answered(false)])
    case PutBack(id) =>
      var state := c.readers[id].state;
      c.(chan := Full(state), readers := c.readers[id := Answered(state == Paused)])
    case RUnlock(id) => c.(readers := c.readers - {id})
    case WaitIfPaused =>
      if c.chan.Empty? then c
      else c.(chan := Empty, waiter := if c.chan.state == Paused then Waiting else Outside)
    case WaitReceives => c.(chan := Empty, waiter := if c.chan.state == Running then Outside else Waiting)
    case WaitTerminates => c.(waiter := Terminated)
    case Terminate => c.(terminate := true)
  }

  function Holders(c: Controller): set<nat> {
    set id | id in c.readers && c.readers[id].Holding?
  }

  /** States in the channel and in the hands of readers. */
  function Tokens(c: Controller): nat {
    |Holders(c)| + if c.chan.Full? then 1 else 0
  }

  ghost predicate Inv(c: Controller) {
    && (!c.commander.NoCommander? ==> c.readers == map[])
    && (c.commander.Drained? ==> c.chan.Empty?)
    && (c.chan.Full? ==> c.last == c.chan && Holders(c) == {})
    && (forall id :: id in Holders(c) ==> c.last == Full(c.readers[id].state) && Holders(c) == {id})
    && (c.waiter.Waiting? ==> c.last.Full?)
    // a resume is still there for a waiter that has not received it
    && (c.waiter.Waiting? && c.last == Full(Running) ==> c.chan.Full? || Holders(c) != {} || c.commander.Drained?)
  }

  ghost predicate Init(c: Controller) {
    c == Controller(Empty, NoCommander, map[], Outside, false, Empty)
  }

  /** Commands and the waiter do not involve the readers. */
  lemma CommandKeeps(c: Controller, step: Step)
    requires Inv(c) && Enabled(c, step)
    requires !step.RLock? && !step.Take? && !step.SeeEmpty? && !step.PutBack? && !step.RUnlock?
    ensures Inv(Do(c, step))
  {
    assert Holders(Do(c, step)) == Holders(c);
    assert !c.commander.NoCommander? ==> Holders(c) == {};
  }

  lemma ReaderKeeps(c: Controller, step: Step)
    requires Inv(c) && Enabled(c, step)
    requires step.RLock? || step.Take? || step.SeeEmpty? || step.PutBack? || step.RUnlock?
    ensures Inv(Do(c, step))
  {
    var d, id := Do(c, step), step.id;
    if step.Take? {
      assert Holders(d) == Holders(c) + {id};
    } else if step.PutBack? {
      assert id in Holders(c);
      assert Holders(d) == {};
    } else {
      assert Holders(d) == Holders(c);
    }
  }

  ghost predicate IsRun(states: seq<Controller>, steps: seq<Step>) {
    && |states| == |steps| + 1
    && Init(states[0])
    && forall i :: 0 <= i < |steps| ==> Enabled(states[i], steps[i]) && states[i + 1] == Do(states[i], steps[i])
  }

  lemma {:induction false} RunKeepsInv(states: seq<Controller>, steps: seq<Step>, i: nat)
    requires IsRun(states, steps) && i < |states|
    ensures Inv(states[i])
  {
    if i == 0 {
    } else {
      RunKeepsInv(states, steps, i - 1);
      var step := steps[i - 1];
      if step.RLock? || step.Take? || step.SeeEmpty? || step.PutBack? || step.RUnlock? {
        ReaderKeeps(states[i - 1], step);
      } else {
        CommandKeeps(states[i - 1], step);
      }
    }
  }

  /** The command of the latest call of `Pause` or `Resume` that has got the write lock. */
  function Asked(steps: seq<Step>): Channel {
    if steps == [] then Empty
    else if steps[|steps| - 1].Lock? then Full(steps[|steps| - 1].cmd)
    else Asked(steps[..|steps| - 1])
  }

  lemma AskedStep(steps: seq<Step>, i: nat)
    requires i < |steps|
    ensures Asked(steps[..i + 1]) == if steps[i].Lock? then Full(steps[i].cmd) else Asked(steps[..i])
  {
    assert steps[..i + 1][..i] == steps[..i];
  }

  /** The call in progress is the one that was made. */
  lemma {:induction false} CommandIsAsked(states: seq<Controller>, steps: seq<Step>, i: nat)
    requires IsRun(states, steps) && i < |states|
    ensures states[i].commander.Locked? || states[i].commander.Drained? ==> Asked(steps[..i]) == Full(states[i].commander.cmd)
  {
    if i == 0 {
    } else {
      CommandIsAsked(states, steps, i - 1);
      AskedStep(steps, i - 1);
    }
  }

  /** What is sent is what the latest call asked for: a `Pause` sends a pause and a `Resume` a resume. */
  lemma SendsWhatWasAsked(states: seq<Controller>, steps: seq<Step>, i: nat)
    requires IsRun(states, steps) && i < |steps| && steps[i].Send?
    ensures Asked(steps[..i]).Full? && states[i + 1].chan == states[i + 1].last == Asked(steps[..i])
  {
    CommandIsAsked(states, steps, i);
  }

  /** Nothing else changes the latest command, and nothing sends at all without having been asked. */
  lemma OnlySendsCommand(states: seq<Controller>, steps: seq<Step>, i: nat)
    requires IsRun(states, steps) && i < |steps| && !steps[i].Send?
    ensures states[i + 1].last == states[i].last
  {
  }

  /** There is never more than one state about, so no send blocks: neither that of a command nor
      that of a reader putting the state back. */
  lemma SendsNeverBlock(states: seq<Controller>, steps: seq<Step>, i: nat)
    requires IsRun(states, steps) && i < |states|
    ensures Tokens(states[i]) <= 1
    ensures states[i].commander.Drained? ==> Enabled(states[i], Send)
    ensures forall id :: id in states[i].readers && states[i].readers[id].Holding? ==> Enabled(states[i], PutBack(id))
  {
    RunKeepsInv(states, steps, i);
    var c := states[i];
    if Holders(c) != {} {
      var id :| id in Holders(c);
      assert Holders(c) == {id};
    }
    forall id | id in c.readers && c.readers[id].Holding? ensures Enabled(c, PutBack(id)) {
      assert id in Holders(c);
    }
  }

  /** A poll blocks exactly when it finds a state and the latest command is a pause. */
  lemma PollBlocksWhenPaused(states: seq<Controller>, steps: seq<Step>, i: nat)
    requires IsRun(states, steps) && i < |steps| && steps[i].WaitIfPaused?
    ensures states[i + 1].waiter.Waiting? <==> states[i].chan.Full? && states[i].last == Full(Paused)
    ensures states[i].chan.Full? ==> states[i + 1].chan.Empty?
  {
    RunKeepsInv(states, steps, i);
  }

  /** A waiter that is blocked leaves only to terminate, or because the latest command is a resume. */
  lemma ReleasedOnlyByResume(states: seq<Controller>, steps: seq<Step>, i: nat)
    requires IsRun(states, steps) && i < |steps|
    requires states[i].waiter.Waiting? && !states[i + 1].waiter.Waiting?
    ensures if states[i + 1].waiter.Terminated? then states[i].terminate else states[i].last == Full(Running)
  {
    RunKeepsInv(states, steps, i);
  }

  /** A state that reaches the blocked waiter releases it exactly if the latest command is a resume, and
      a waiter that sees the call for termination is gone. */
  lemma ReceiptDecides(states: seq<Controller>, steps: seq<Step>, i: nat)
    requires IsRun(states, steps) && i < |steps|
    ensures steps[i].WaitReceives? ==>
              && states[i + 1].waiter == (if states[i].last == Full(Running) then Outside else Waiting)
              && states[i + 1].chan.Empty?
    ensures steps[i].WaitTerminates? ==> states[i + 1].waiter.Terminated?
  {
    RunKeepsInv(states, steps, i);
  }

  /** And a resume is never lost on it: it is in the channel, or will be put back, or is about to be
      replaced by a later command. */
  lemma ResumeIsNotLost(states: seq<Controller>, steps: seq<Step>, i: nat)
    requires IsRun(states, steps) && i < |states|
    requires states[i].waiter.Waiting? && states[i].last == Full(Running)
    ensures || Enabled(states[i], WaitReceives)
            || (exists id :: id in states[i].readers && Enabled(states[i], PutBack(id)))
            || Enabled(states[i], Send)
  {
    RunKeepsInv(states, steps, i);
    var c := states[i];
    if c.chan.Empty? && !c.commander.Drained? {
      var id :| id in Holders(c);
      assert Enabled(c, PutBack(id));
    }
  }

  /** Nobody takes the state out for good: no later command drains the channel, and the waiter does not
      receive from it. */
  predicate LeavesState(step: Step) {
    !step.Drain? && !step.WaitIfPaused? && !step.WaitReceives?
  }

  ghost predicate PausedSince(states: seq<Controller>, steps: seq<Step>, i: nat, j: nat)
    requires |states| == |steps| + 1
  {
    && i < j < |states| && steps[i].Send? && Asked(steps[..i]) == Full(Paused)
    && forall k :: i < k < j ==> LeavesState(steps[k])
  }

  /** After a pause the state stays in the channel, or in the hands of a reader that will put it back. */
  lemma {:induction false} PauseStays(states: seq<Controller>, steps: seq<Step>, i: nat, j: nat)
    requires IsRun(states, steps) && PausedSince(states, steps, i, j)
    ensures states[j].last == Full(Paused) && (states[j].chan.Full? || Holders(states[j]) != {})
    ensures !states[j].commander.Drained?
  {
    if j == i + 1 {
      SendsWhatWasAsked(states, steps, i);
    } else {
      PauseStays(states, steps, i, j - 1);
      RunKeepsInv(states, steps, j - 1);
      StateStays(states[j - 1], steps[j - 1]);
    }
  }

  lemma StateStays(c: Controller, step: Step)
    requires Inv(c) && Enabled(c, step) && LeavesState(step) && !c.commander.Drained?
    requires c.chan.Full? || Holders(c) != {}
    ensures var d := Do(c, step); d.last == c.last && (d.chan.Full? || Holders(d) != {}) && !d.commander.Drained?
  {
    var d := Do(c, step);
    if step.Take? {
      assert step.id in Holders(d);
    } else if !step.PutBack? && c.chan.Empty? {
      var id :| id in Holders(c);
      assert id in Holders(d);
    }
  }

  /** So the next poll of the waiter blocks, exactly if no reader holds the state at that moment. */
  lemma NextPollBlocks(states: seq<Controller>, steps: seq<Step>, i: nat, j: nat)
    requires IsRun(states, steps) && PausedSince(states, steps, i, j) && j < |steps| && steps[j].WaitIfPaused?
    ensures states[j + 1].waiter.Waiting? <==> Holders(states[j]) == {}
    ensures states[j].readers == map[] ==> states[j + 1].waiter.Waiting?
  {
    PauseStays(states, steps, i, j);
    RunKeepsInv(states, steps, j);
  }

  lemma BlockedStep(c: Controller, step: Step)
    requires Inv(c) && Enabled(c, step) && c.waiter.Waiting? && c.last == Full(Paused)
    requires !(step.Send? && c.commander == Drained(Running)) && !step.WaitTerminates?
    ensures Do(c, step).waiter.Waiting? && Do(c, step).last == Full(Paused)
  {
    if step.Send? {
      assert c.commander == Drained(c.commander.cmd) && c.commander.cmd == Paused;
    }
  }

  /** And the waiter stays blocked until a resume is sent or it is told to terminate. */
  lemma {:induction false} StaysBlocked(states: seq<Controller>, steps: seq<Step>, i: nat, j: nat)
    requires IsRun(states, steps) && i <= j < |states| && states[i].waiter.Waiting? && states[i].last == Full(Paused)
    requires forall k :: i <= k < j ==> !(steps[k].Send? && Asked(steps[..k]) == Full(Running)) && !steps[k].WaitTerminates?
    ensures states[j].waiter.Waiting? && states[j].last == Full(Paused)
  {
    if i == j {
    } else {
      StaysBlocked(states, steps, i, j - 1);
      RunKeepsInv(states, steps, j - 1);
      CommandIsAsked(states, steps, j - 1);
      assert !(steps[j - 1].Send? && Asked(steps[..j - 1]) == Full(Running));
      BlockedStep(states[j - 1], steps[j - 1]);
    }
  }

  /** `IsPaused` answers yes only while the latest command is a pause. */
  lemma PausedAnswerIsLatest(states: seq<Controller>, steps: seq<Step>, i: nat, id: nat)
    requires IsRun(states, steps) && i < |steps| && steps[i] == PutBack(id)
    ensures id in states[i + 1].readers
    ensures states[i + 1].readers[id] == Answered(states[i].last == Full(Paused))
  {
    RunKeepsInv(states, steps, i);
    assert id in Holders(states[i]);
  }

  /** A reader that finds no state answers that nothing is paused. */
  lemma EmptyAnswerIsNo(states: seq<Controller>, steps: seq<Step>, i: nat, id: nat)
    requires IsRun(states, steps) && i < |steps| && steps[i] == SeeEmpty(id)
    ensures id in states[i + 1].readers && states[i + 1].readers[id] == Answered(false) && states[i].chan.Empty?
  {
  }

  /** Whoever is in the middle of a call can go on, and the waiter can always poll or leave; with no call
      in progress, any can be made. */
  lemma NobodyIsStuck(states: seq<Controller>, steps: seq<Step>, i: nat)
    requires IsRun(states, steps) && i < |states|
    ensures var c := states[i];
            && (c.commander.Locked? ==> Enabled(c, Drain))
            && (c.commander.Drained? ==> Enabled(c, Send))
            && (c.commander.Sent? ==> Enabled(c, Unlock))
            && (c.waiter.Outside? ==> Enabled(c, WaitIfPaused) || Enabled(c, WaitTerminates))
            && (c.commander.NoCommander? && c.readers == map[] ==> forall cmd :: Enabled(c, Lock(cmd)))
            && (c.commander.NoCommander? ==> forall id: nat :: id !in c.readers ==> Enabled(c, RLock(id)))
    ensures forall id :: id in states[i].readers ==>
              var c := states[i];
              Enabled(c, Take(id)) || Enabled(c, SeeEmpty(id)) || Enabled(c, PutBack(id)) || Enabled(c, RUnlock(id))
  {
    SendsNeverBlock(states, steps, i);
  }

  /** A call for termination lasts, and lets the waiter go wherever it is. */
  lemma {:induction false} TerminationReaches(states: seq<Controller>, steps: seq<Step>, i: nat, j: nat)
    requires IsRun(states, steps) && i < j < |states| && steps[i].Terminate?
    ensures states[j].waiter.Terminated? || Enabled(states[j], WaitTerminates)
    ensures states[j].terminate
  {
    if j == i + 1 {
    } else {
      TerminationReaches(states, steps, i, j - 1);
    }
  }

  /** The steps that a command has left, and those of a reader. */
  function Left(c: Controller): nat {
    match c.commander
    case NoCommander => 0
    case Locked(_) => 3
    case Drained(_) => 2
    case Sent => 1
  }

  function LeftOf(c: Controller, id: nat): nat {
    if id !in c.readers then 0
    else match c.readers[id]
         case Checking => 3
         case Holding(_) => 2
         case Answered(_) => 1
  }

  /** Calls begin and come to an end: every step of a thread brings its call closer to the end. */
  lemma CallsEnd(states: seq<Controller>, steps: seq<Step>, i: nat)
    requires IsRun(states, steps) && i < |steps|
    ensures var c, d, step := states[i], states[i + 1], steps[i];
            && (step.Lock? ==> Left(d) == 3) && (step.RLock? ==> LeftOf(d, step.id) == 3)
            && (step.Drain? || step.Send? || step.Unlock? ==> Left(d) < Left(c))
            && (step.Take? || step.SeeEmpty? || step.PutBack? || step.RUnlock? ==> LeftOf(d, step.id) < LeftOf(c, step.id))
  {
  }
}
