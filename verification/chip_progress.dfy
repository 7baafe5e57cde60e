/** The worker of a chip makes progress: no command waits for ever, and the stop flag ends it. */
module ChipProgress {
  import opened FlashTypes
  import opened NandChips

  // ----- one turn -----

  /** What a turn of the worker does, seen in a behaviour. At the head of its loop it looks at the
      stop flag; in the wait it takes the front of a queue that is not empty, even when the flag is
      up, and leaves only on an empty queue with the flag up; with a command in hand it answers. */
  lemma TurnMoves(d: Dims, states: seq<Chip>, steps: seq<Step>, i: nat)
    requires Behaviour(d, states, steps) && i < |steps| && steps[i] == Turn
    ensures var s, s' := states[i], states[i + 1];
            && s'.pushed == s.pushed && s'.stop == s.stop
            && (s.worker == AtHead ==> s' == s.(worker := if s.stop then Exited else Waiting))
            && (s.worker == Waiting && s.queue != [] ==> s' == s.(worker := Busy(s.queue[0]), queue := s.queue[1..]))
            && (s.worker == Waiting && s.queue == [] ==> s' == if s.stop then s.(worker := Exited) else s)
            && (s.worker.Busy? ==> s'.worker == AtHead && s'.queue == s.queue && |s'.replies| == |s.replies| + 1)
            && (s.worker == Exited ==> s' == s)
  {
    assert Applied(d, states[i], steps[i], states[i + 1]);
    hide Execute;
  }

  /** What the callers do: the worker does not move. */
  lemma CallersLeaveTheWorker(d: Dims, states: seq<Chip>, steps: seq<Step>, i: nat)
    requires Behaviour(d, states, steps) && i < |steps| && steps[i] != Turn
    ensures states[i + 1].worker == states[i].worker && states[i + 1].replies == states[i].replies
    ensures states[i].stop ==> states[i + 1].stop
    ensures states[i].pushed <= states[i + 1].pushed
  {
    assert Applied(d, states[i], steps[i], states[i + 1]);
    hide WorkerTurn;
  }

  /** The worker exits only when the stop flag is up, and from the wait only on an empty queue. */
  lemma ExitNeedsStop(d: Dims, states: seq<Chip>, steps: seq<Step>, i: nat)
    requires Behaviour(d, states, steps) && i < |steps|
    requires states[i].worker != Exited && states[i + 1].worker == Exited
    ensures steps[i] == Turn && states[i].stop
    ensures states[i].worker == AtHead || (states[i].worker == Waiting && states[i].queue == [])
  {
    if steps[i] == Turn {
      TurnMoves(d, states, steps, i);
    } else {
      CallersLeaveTheWorker(d, states, steps, i);
    }
    hide Behaviour;
  }

  lemma {:induction false} ExitedIsStopped(d: Dims, states: seq<Chip>, steps: seq<Step>, i: nat)
    requires Behaviour(d, states, steps) && i <= |steps| && states[i].worker == Exited
    ensures states[i].stop
  {
    if i > 0 {
      if states[i - 1].worker == Exited { ExitedIsStopped(d, states, steps, i - 1); }
      else { ExitNeedsStop(d, states, steps, i - 1); }
      if steps[i - 1] == Turn { TurnMoves(d, states, steps, i - 1); }
      else { CallersLeaveTheWorker(d, states, steps, i - 1); }
    }
    hide Behaviour;
  }

  // ----- progress -----

  /** The worker's turns among steps i .. j-1. */
  ghost function Turns(steps: seq<Step>, i: nat, j: nat): nat
    requires i <= j <= |steps|
  {
    if i == j then 0 else Turns(steps, i, j - 1) + if steps[j - 1] == Turn then 1 else 0
  }

  /** Turns needed until the first `n` commands pushed are answered. */
  ghost function TurnsNeeded(s: Chip, n: nat): nat {
    if |s.replies| >= n then 0
    else
      match s.worker
      case Busy(_) => 3 * (n - |s.replies|) - 2
      case Waiting => 3 * (n - |s.replies|) - 1
      case _ => 3 * (n - |s.replies|)
  }

  /** A turn brings them one nearer, and the callers none further away. */
  lemma StepBringsNearer(d: Dims, states: seq<Chip>, steps: seq<Step>, i: nat, n: nat)
    requires Behaviour(d, states, steps) && i < |steps| && n <= |states[i].pushed| && !states[i].stop
    ensures n <= |states[i + 1].pushed|
    ensures TurnsNeeded(states[i], n) > 0 && steps[i] == Turn ==>
              TurnsNeeded(states[i + 1], n) == TurnsNeeded(states[i], n) - 1
    ensures TurnsNeeded(states[i + 1], n) <= TurnsNeeded(states[i], n)
  {
    RepliesAreSerial(d, states, steps, i);
    Outstanding(d, states[i]);
    if states[i].worker == Exited { ExitedIsStopped(d, states, steps, i); }
    if steps[i] == Turn { TurnMoves(d, states, steps, i); } else { CallersLeaveTheWorker(d, states, steps, i); }
    hide Behaviour, ChipInv;
  }

  lemma Outstanding(d: Dims, s: Chip)
    requires ChipInv(d, s)
    ensures |s.pushed| == |s.replies| + (if s.worker.Busy? then 1 else 0) + |s.queue|
  {
  }

  /** The stop flag never comes down again. */
  lemma {:induction false} StopStays(d: Dims, states: seq<Chip>, steps: seq<Step>, i: nat, j: nat)
    requires Behaviour(d, states, steps) && i <= j <= |steps| && states[i].stop
    ensures states[j].stop
  {
    if i < j {
      StopStays(d, states, steps, i, j - 1);
      if steps[j - 1] == Turn { TurnMoves(d, states, steps, j - 1); }
      else { CallersLeaveTheWorker(d, states, steps, j - 1); }
    }
    hide Behaviour;
  }

  lemma {:induction false} TurnsBringNearer(d: Dims, states: seq<Chip>, steps: seq<Step>, i: nat, j: nat, n: nat)
    requires Behaviour(d, states, steps) && i <= j <= |steps| && n <= |states[i].pushed| && !states[j].stop
    ensures n <= |states[j].pushed|
    ensures TurnsNeeded(states[j], n) <= if TurnsNeeded(states[i], n) > Turns(steps, i, j)
                                         then TurnsNeeded(states[i], n) - Turns(steps, i, j) else 0
  {
    if i < j {
      if states[j - 1].stop { StopStays(d, states, steps, j - 1, j); }
      TurnsBringNearer(d, states, steps, i, j - 1, n);
      StepBringsNearer(d, states, steps, j - 1, n);
    }
    hide Behaviour, TurnsNeeded;
  }

  /** No command starves: while the stop flag is down, three turns of the worker for each command
      outstanding answer them all, whatever is pushed in the meantime, each as in sequential
      execution. */
  lemma {:induction false} NoCommandStarves(d: Dims, states: seq<Chip>, steps: seq<Step>, i: nat, j: nat)
    requires Behaviour(d, states, steps) && i <= j <= |steps| && !states[j].stop
    requires Turns(steps, i, j) >= 3 * (|states[i].pushed| - |states[i].replies|)
    ensures |states[j].pushed| >= |states[j].replies| >= |states[i].pushed|
    ensures GoodTasks(d, states[j].pushed)
    ensures states[j].replies == RunSerial(d, states[j].pushed).replies[..|states[j].replies|]
  {
    hide RunSerial;
    TurnsBringNearer(d, states, steps, i, j, |states[i].pushed|);
    RepliesAreSerial(d, states, steps, i);
    RepliesAreSerial(d, states, steps, j);
    hide Behaviour;
  }

  /** Every behaviour can go on with one more turn. */
  lemma OneMoreTurn(d: Dims, states: seq<Chip>, steps: seq<Step>) returns (s: Chip)
    requires Behaviour(d, states, steps)
    ensures Behaviour(d, states + [s], steps + [Turn])
  {
    RepliesAreSerial(d, states, steps, |steps|);
    InHandIsGood(d, states[|steps|]);
    s := Apply(d, states[|steps|], Turn);
    var states', steps' := states + [s], steps + [Turn];
    hide Apply, ChipInv;
    forall i | 0 <= i < |steps'|
      ensures StepAllowed(d, steps'[i]) && Applied(d, states'[i], steps'[i], states'[i + 1])
    {
      if i < |steps| { assert Applied(d, states[i], steps[i], states[i + 1]); }
    }
  }

  lemma {:induction false} TurnsSplit(steps: seq<Step>, i: nat, j: nat)
    requires i <= j <= |steps|
    ensures Turns(steps + [Turn], i, j) == Turns(steps, i, j)
    ensures j == |steps| ==> Turns(steps + [Turn], i, j + 1) == Turns(steps, i, j) + 1
  {
    if i < j { TurnsSplit(steps, i, j - 1); }
  }

  lemma {:induction false} MoreTurns(d: Dims, states: seq<Chip>, steps: seq<Step>, n: nat)
    returns (states': seq<Chip>, steps': seq<Step>)
    requires Behaviour(d, states, steps)
    ensures Behaviour(d, states', steps') && states <= states' && steps <= steps' && |steps'| == |steps| + n
    ensures forall k :: |steps| <= k < |steps'| ==> steps'[k] == Turn
    ensures Turns(steps', |steps|, |steps'|) == n
  {
    if n == 0 {
      states', steps' := states, steps;
    } else {
      states', steps' := MoreTurns(d, states, steps, n - 1);
      var s := OneMoreTurn(d, states', steps');
      TurnsSplit(steps', |steps|, |steps'|);
      states', steps' := states' + [s], steps' + [Turn];
    }
    hide Behaviour;
  }

  /** From any state of a behaviour with the stop flag down, three turns of the worker for each of
      the n commands queued or in hand, and nothing else, lead to a state in which every command
      pushed has been answered as in sequential execution. */
  lemma ThreeTurnsEach(d: Dims, states: seq<Chip>, steps: seq<Step>) returns (states': seq<Chip>, steps': seq<Step>)
    requires Behaviour(d, states, steps) && !states[|steps|].stop
    ensures var s := states[|steps|]; var n := |s.queue| + if s.worker.Busy? then 1 else 0;
            && Behaviour(d, states', steps') && states <= states' && steps <= steps' && |steps'| == |steps| + 3 * n
            && (forall k :: |steps| <= k < |steps'| ==> steps'[k] == Turn)
            && states'[|steps'|].pushed == s.pushed && GoodTasks(d, s.pushed)
            && states'[|steps'|].replies == RunSerial(d, s.pushed).replies
  {
    hide RunSerial;
    var s := states[|steps|];
    RepliesAreSerial(d, states, steps, |steps|);
    Outstanding(d, s);
    states', steps' := MoreTurns(d, states, steps, 3 * (|s.pushed| - |s.replies|));
    assert states'[|steps|] == s;
    TurnsPushNothing(d, states', steps', |steps|, |steps'|);
    NoCommandStarves(d, states', steps', |steps|, |steps'|);
    RepliesAreSerial(d, states', steps', |steps'|);
    AllAnswered(d, states'[|steps'|]);
    hide Behaviour;
  }

  lemma {:induction false} AllAnswered(d: Dims, s: Chip)
    requires ChipInv(d, s) && |s.replies| >= |s.pushed|
    ensures s.replies == RunSerial(d, s.pushed).replies
  {
    assert s.pushed[..|s.replies|] == s.pushed;
    hide RunSerial;
  }

  lemma {:induction false} TurnsPushNothing(d: Dims, states: seq<Chip>, steps: seq<Step>, i: nat, j: nat)
    requires Behaviour(d, states, steps) && i <= j <= |steps| && forall k :: i <= k < j ==> steps[k] == Turn
    ensures states[j].pushed == states[i].pushed && states[j].stop == states[i].stop
  {
    if i < j {
      TurnsPushNothing(d, states, steps, i, j - 1);
      TurnMoves(d, states, steps, j - 1);
    }
    hide Behaviour;
  }

  // ----- the end -----

  /** Turns until the worker has exited once the stop flag is up. */
  ghost function TurnsLeft(w: Worker): nat {
    match w
    case Waiting => 3
    case Busy(_) => 2
    case AtHead => 1
    case Exited => 0
  }

  /** The stop flag ends the worker within three of its turns, whatever is pushed meanwhile. */
  lemma {:induction false} StopEndsWorker(d: Dims, states: seq<Chip>, steps: seq<Step>, i: nat, j: nat)
    requires Behaviour(d, states, steps) && i <= j <= |steps| && states[i].stop
    ensures TurnsLeft(states[j].worker) <= if TurnsLeft(states[i].worker) > Turns(steps, i, j)
                                           then TurnsLeft(states[i].worker) - Turns(steps, i, j) else 0
    ensures Turns(steps, i, j) >= 3 ==> states[j].worker == Exited
  {
    if i < j {
      StopEndsWorker(d, states, steps, i, j - 1);
      StopStays(d, states, steps, i, j - 1);
      if steps[j - 1] == Turn { TurnMoves(d, states, steps, j - 1); }
      else { CallersLeaveTheWorker(d, states, steps, j - 1); }
    }
    hide Behaviour;
  }

  // ----- the answers -----

  /** Every reply says whether its command was in range: a read answers what was last written there
      or a blank page, the others their status. */
  lemma {:induction false} RepliesTellOutcome(d: Dims, tasks: seq<Task>, i: nat)
    requires GoodTasks(d, tasks) && i < |tasks|
    ensures var t, reply := tasks[i], RunSerial(d, tasks).replies[i];
            var page := t.addr.Some? && t.addr.value.die < d.dies && t.addr.value.plane < d.planes
                        && t.addr.value.block < d.blocks && t.addr.value.page < d.pages;
            var block := t.addr.Some? && t.addr.value.die < d.dies && t.addr.value.plane < d.planes
                         && t.addr.value.block < d.blocks;
            match t.cmd
            case Read => reply == if page then Reply(Read, 0, LastWritten(d, tasks[..i], t.addr.value))
                                  else Reply(Read, -1, Blank(d))
            case Program => reply == Reply(Program, if page then 0 else -1, [])
            case Erase => reply == Reply(Erase, if block then 0 else -1, [])
            case NoCommand => reply == Reply(NoCommand, -1, [])
  {
    SerialPrefix(d, tasks, i + 1);
    assert tasks[..i + 1][..i] == tasks[..i];
    if tasks[i].cmd == Read && tasks[i].addr.Some? && PageInRange(d, tasks[i].addr.value) {
      ReadsAnswerLastWritten(d, tasks, i);
    }
    hide LastWritten, Blank;
  }
}
