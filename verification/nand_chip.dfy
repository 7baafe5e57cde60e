/** A flash chip: its page buffers, the commands on them, and the single worker that serves the
    command queue. Pushes, the worker and the stop flag interleave in any order. */
module NandChips {
  import opened FlashTypes

  type Bytes = seq<bv8>

  datatype Cmd = Read | Program | Erase | NoCommand

  datatype ChipAddr = ChipAddr(die: nat, plane: nat, block: nat, page: nat)

  datatype Dims = Dims(dies: nat, planes: nat, blocks: nat, pages: nat, pageSize: nat)

  /** The address is captured when the command is pushed; None is a null pointer. */
  datatype Task = Task(cmd: Cmd, addr: Option<ChipAddr>, data: Bytes)

  datatype Reply = Reply(cmd: Cmd, status: int, data: Bytes)

  /** The page buffers; pages that are not listed read as erased. */
  type Store = map<ChipAddr, Bytes>

  datatype Effect = Effect(store: Store, reply: Reply)

  function Blank(d: Dims): (r: Bytes)
    ensures |r| == d.pageSize
  {
    seq(d.pageSize, _ => 0xff)
  }

  predicate BlockInRange(d: Dims, a: ChipAddr) { a.die < d.dies && a.plane < d.planes && a.block < d.blocks }

  predicate PageInRange(d: Dims, a: ChipAddr) { BlockInRange(d, a) && a.page < d.pages }

  predicate SameBlock(a: ChipAddr, b: ChipAddr) { a.die == b.die && a.plane == b.plane && a.block == b.block }

  function PageOf(d: Dims, store: Store, a: ChipAddr): Bytes {
    if a in store then store[a] else Blank(d)
  }

  /** A program command carries at least a page of data. */
  predicate GoodTask(d: Dims, t: Task) { t.cmd == Program ==> |t.data| >= d.pageSize }

  function WipeBlock(d: Dims, store: Store, a: ChipAddr): Store {
    map x | x in store :: if SameBlock(x, a) && x.page < d.pages then Blank(d) else store[x]
  }

  /** One command: what it does to the pages and what it answers. */
  function Execute(d: Dims, store: Store, t: Task): Effect
    requires GoodTask(d, t)
  {
    match t.cmd
    case Read =>
      if t.addr.Some? && PageInRange(d, t.addr.value) then Effect(store, Reply(Read, 0, PageOf(d, store, t.addr.value)))
      else Effect(store, Reply(Read, -1, Blank(d)))
    case Program =>
      if t.addr.Some? && PageInRange(d, t.addr.value)
      then Effect(store[t.addr.value := t.data[..d.pageSize]], Reply(Program, 0, []))
      else Effect(store, Reply(Program, -1, []))
    case Erase =>
      if t.addr.Some? && BlockInRange(d, t.addr.value)
        then Effect(WipeBlock(d, store, t.addr.value), Reply(Erase, 0, []))
      else Effect(store, Reply(Erase, -1, []))
    case NoCommand => Effect(store, Reply(NoCommand, -1, []))
  }

  ghost predicate GoodTasks(d: Dims, tasks: seq<Task>) {
    forall i :: 0 <= i < |tasks| ==> GoodTask(d, tasks[i])
  }

  datatype Serial = Serial(store: Store, replies: seq<Reply>)

  /** Sequential execution from erased pages. */
  function RunSerial(d: Dims, tasks: seq<Task>): (r: Serial)
    requires GoodTasks(d, tasks)
    ensures |r.replies| == |tasks|
  {
    if tasks == [] then Serial(map[], [])
    else
      var before := RunSerial(d, tasks[..|tasks| - 1]);
      var e := Execute(d, before.store, tasks[|tasks| - 1]);
      Serial(e.store, before.replies + [e.reply])
  }

  // ----- what a page holds -----

  /** The last thing that happened to page `a`: programmed with its data, or erased. */
  ghost function LastWritten(d: Dims, tasks: seq<Task>, a: ChipAddr): Bytes
    requires GoodTasks(d, tasks)
  {
    if tasks == [] then Blank(d)
    else
      var t := tasks[|tasks| - 1];
      if t.cmd == Program && t.addr == Some(a) then t.data[..d.pageSize]
      else if t.cmd == Erase && t.addr.Some? && SameBlock(a, t.addr.value) then Blank(d)
      else LastWritten(d, tasks[..|tasks| - 1], a)
  }

  /** After any commands a page of the chip holds what was last programmed into it since its
      block was last erased, and erased bytes if nothing was. */
  lemma {:induction false} PagesHoldLastWritten(d: Dims, tasks: seq<Task>, a: ChipAddr)
    requires GoodTasks(d, tasks) && PageInRange(d, a)
    ensures PageOf(d, RunSerial(d, tasks).store, a) == LastWritten(d, tasks, a)
  {
    if tasks != [] {
      PagesHoldLastWritten(d, tasks[..|tasks| - 1], a);
      hide Blank;
    }
  }

  /** So a read in range answers what the commands before it last wrote. */
  lemma {:induction false} ReadsAnswerLastWritten(d: Dims, tasks: seq<Task>, i: nat)
    requires GoodTasks(d, tasks) && i < |tasks| && tasks[i].cmd == Read
    requires tasks[i].addr.Some? && PageInRange(d, tasks[i].addr.value)
    ensures RunSerial(d, tasks).replies[i] == Reply(Read, 0, LastWritten(d, tasks[..i], tasks[i].addr.value))
  {
    SerialPrefix(d, tasks, i + 1);
    assert tasks[..i + 1][..i] == tasks[..i];
    PagesHoldLastWritten(d, tasks[..i], tasks[i].addr.value);
    hide LastWritten, Blank;
  }

  lemma {:induction false} SerialPrefix(d: Dims, tasks: seq<Task>, n: nat)
    requires GoodTasks(d, tasks) && n <= |tasks|
    ensures RunSerial(d, tasks[..n]).replies == RunSerial(d, tasks).replies[..n]
  {
    if n == |tasks| {
      assert tasks[..n] == tasks;
    } else {
      SerialPrefix(d, tasks[..|tasks| - 1], n);
      assert tasks[..|tasks| - 1][..n] == tasks[..n];
      hide Execute;
    }
  }

  // ----- the worker -----

  /** Where the worker stands in its loop. */
  datatype Worker = AtHead | Waiting | Busy(task: Task) | Exited

  /** `pushed` is every command pushed so far, `replies` the promises fulfilled so far. */
  datatype Chip = Chip(store: Store, queue: seq<Task>, stop: bool, worker: Worker, pushed: seq<Task>,
                       replies: seq<Reply>)

  datatype Step = Push(task: Task) | Stop | Turn

  const NEW_CHIP: Chip := Chip(map[], [], false, AtHead, [], [])

  /** One atomic section of the worker. */
  function WorkerTurn(d: Dims, s: Chip): Chip
    requires s.worker.Busy? ==> GoodTask(d, s.worker.task)
  {
    match s.worker
    case AtHead => s.(worker := if s.stop then Exited else Waiting)
    case Waiting =>
      if s.queue != [] then s.(worker := Busy(s.queue[0]), queue := s.queue[1..])
      else if s.stop then s.(worker := Exited)
      else s
    case Busy(t) =>
      var e := Execute(d, s.store, t);
      s.(store := e.store, replies := s.replies + [e.reply], worker := AtHead)
    case Exited => s
  }

  /** The command in the worker's hands. */
  function InHand(w: Worker): seq<Task> { if w.Busy? then [w.task] else [] }

  /** The fulfilled commands, the one in hand and the queue are the pushed commands in order, and
      the pages and replies are those of sequential execution. */
  ghost predicate ChipInv(d: Dims, s: Chip) {
    && |s.replies| <= |s.pushed| && GoodTasks(d, s.pushed)
    && s.pushed == s.pushed[..|s.replies|] + InHand(s.worker) + s.queue
    && RunSerial(d, s.pushed[..|s.replies|]) == Serial(s.store, s.replies)
  }

  ghost predicate StepAllowed(d: Dims, step: Step) { step.Push? ==> GoodTask(d, step.task) }

  function Apply(d: Dims, s: Chip, step: Step): Chip
    requires s.worker.Busy? ==> GoodTask(d, s.worker.task)
  {
    match step
    case Push(t) => s.(queue := s.queue + [t], pushed := s.pushed + [t])
    case Stop => s.(stop := true)
    case Turn => WorkerTurn(d, s)
  }

  /** `s'` is what the step makes of `s`. */
  ghost predicate Applied(d: Dims, s: Chip, step: Step, s': Chip) {
    (s.worker.Busy? ==> GoodTask(d, s.worker.task)) && s' == Apply(d, s, step)
  }

  lemma InHandIsGood(d: Dims, s: Chip)
    requires ChipInv(d, s)
    ensures s.worker.Busy? ==> GoodTask(d, s.worker.task) && s.pushed[|s.replies|..] == [s.worker.task] + s.queue
  {
    var n := |s.replies|;
    assert s.pushed == s.pushed[..n] + (InHand(s.worker) + s.queue);
    assert s.pushed[n..] == InHand(s.worker) + s.queue;
    if s.worker.Busy? { assert s.pushed[n] == s.worker.task; }
  }

  lemma PushKeeps(d: Dims, s: Chip, t: Task)
    requires ChipInv(d, s) && GoodTask(d, t)
    ensures ChipInv(d, s.(queue := s.queue + [t], pushed := s.pushed + [t]))
  {
    hide RunSerial;
    var n, pushed := |s.replies|, s.pushed + [t];
    assert pushed[..n] == s.pushed[..n];
    assert pushed == pushed[..n] + InHand(s.worker) + (s.queue + [t]);
  }

  lemma TakeKeeps(d: Dims, s: Chip)
    requires ChipInv(d, s) && s.worker == Waiting && s.queue != []
    ensures ChipInv(d, s.(worker := Busy(s.queue[0]), queue := s.queue[1..]))
  {
    hide RunSerial;
    assert s.queue == [s.queue[0]] + s.queue[1..];
    assert s.pushed == s.pushed[..|s.replies|] + [s.queue[0]] + s.queue[1..];
  }

  lemma ServeKeeps(d: Dims, s: Chip, t: Task)
    requires ChipInv(d, s) && s.worker == Busy(t)
    ensures GoodTask(d, t)
    ensures var e := Execute(d, s.store, t);
            ChipInv(d, s.(store := e.store, replies := s.replies + [e.reply], worker := AtHead))
  {
    hide Execute;
    InHandIsGood(d, s);
    var n, done := |s.replies|, s.pushed[..|s.replies| + 1];
    assert done[..n] == s.pushed[..n] && done[n] == s.pushed[n..][0] == t;
    assert s.pushed[n + 1..] == s.pushed[n..][1..] == s.queue;
    assert s.pushed == done + InHand(AtHead) + s.queue;
  }

  lemma StepKeeps(d: Dims, s: Chip, step: Step)
    requires ChipInv(d, s) && StepAllowed(d, step)
    ensures s.worker.Busy? ==> GoodTask(d, s.worker.task)
    ensures ChipInv(d, Apply(d, s, step))
  {
    hide Execute, RunSerial;
    InHandIsGood(d, s);
    match step
    case Push(t) => PushKeeps(d, s, t);
    case Stop =>
    case Turn =>
      if s.worker.Busy? {
        ServeKeeps(d, s, s.worker.task);
      } else if s.worker.Waiting? && s.queue != [] {
        TakeKeeps(d, s);
      }
  }

  /** All interleavings: the states a chip goes through. */
  ghost predicate Behaviour(d: Dims, states: seq<Chip>, steps: seq<Step>) {
    && |states| == |steps| + 1 && states[0] == NEW_CHIP
    && forall i :: 0 <= i < |steps| ==> StepAllowed(d, steps[i]) && Applied(d, states[i], steps[i], states[i + 1])
  }

  /** In every interleaving the fulfilled replies are those of a prefix of the pushed commands,
      in push order, each equal to what sequential execution yields. */
  lemma {:induction false} RepliesAreSerial(d: Dims, states: seq<Chip>, steps: seq<Step>, i: nat)
    requires Behaviour(d, states, steps) && i <= |steps|
    ensures ChipInv(d, states[i])
    ensures states[i].replies == RunSerial(d, states[i].pushed).replies[..|states[i].replies|]
  {
    if i > 0 {
      RepliesAreSerial(d, states, steps, i - 1);
      StepKeeps(d, states[i - 1], steps[i - 1]);
    }
    hide Behaviour, Apply;
    SerialPrefix(d, states[i].pushed, |states[i].replies|);
  }

  /** A worker that waits on an empty queue has answered everything pushed. */
  lemma {:induction false} IdleMeansDone(d: Dims, s: Chip)
    requires ChipInv(d, s) && s.worker == Waiting && s.queue == []
    ensures s.replies == RunSerial(d, s.pushed).replies
  {
    assert s.pushed[..|s.replies|] == s.pushed;
  }

  /** How many commands the worker can still serve once it is told to stop. */
  function Leftover(s: Chip): nat {
    if s.worker.Busy? || s.worker.Waiting? then 1 else 0
  }

  /** After the stop flag is set at most one more command is served. */
  lemma {:induction false} StopServesAtMostOne(d: Dims, states: seq<Chip>, steps: seq<Step>, i: nat, j: nat)
    requires Behaviour(d, states, steps) && i <= j <= |steps| && states[i].stop
    ensures states[j].stop && |states[j].replies| + Leftover(states[j]) <= |states[i].replies| + Leftover(states[i])
    ensures |states[j].replies| <= |states[i].replies| + 1
  {
    if i < j {
      StopServesAtMostOne(d, states, steps, i, j - 1);
      hide Execute;
    }
  }

  /** The reply to a command is settled when it is pushed: later pushes do not change it. */
  lemma {:induction false} ReplyIsSettled(d: Dims, tasks: seq<Task>, later: seq<Task>, i: nat)
    requires GoodTasks(d, tasks + later) && i < |tasks|
    ensures GoodTasks(d, tasks) && RunSerial(d, tasks + later).replies[i] == RunSerial(d, tasks).replies[i]
  {
    assert (tasks + later)[..|tasks|] == tasks;
    assert forall j :: 0 <= j < |tasks| ==> tasks[j] == (tasks + later)[j];
    SerialPrefix(d, tasks + later, |tasks|);
    hide RunSerial;
  }

  // ----- the chip itself -----

  /** Two page maps that read the same everywhere. */
  ghost predicate ReadAlike(d: Dims, x: Store, y: Store) {
    forall a :: PageOf(d, x, a) == PageOf(d, y, a)
  }

  lemma WipedReads(d: Dims, store: Store, a: ChipAddr, x: ChipAddr)
    ensures PageOf(d, WipeBlock(d, store, a), x)
            == if SameBlock(x, a) && x.page < d.pages then Blank(d) else PageOf(d, store, x)
  {
    hide Blank;
  }

  lemma ExecuteAlike(d: Dims, x: Store, y: Store, t: Task)
    requires ReadAlike(d, x, y) && GoodTask(d, t)
    ensures Execute(d, x, t).reply == Execute(d, y, t).reply
    ensures ReadAlike(d, Execute(d, x, t).store, Execute(d, y, t).store)
  {
    hide Blank, WipeBlock;
    forall a ensures PageOf(d, Execute(d, x, t).store, a) == PageOf(d, Execute(d, y, t).store, a) {
      assert PageOf(d, x, a) == PageOf(d, y, a);
      if t.cmd == Erase && t.addr.Some? {
        WipedReads(d, x, t.addr.value, a);
        WipedReads(d, y, t.addr.value, a);
      }
    }
    assert t.addr.Some? ==> PageOf(d, x, t.addr.value) == PageOf(d, y, t.addr.value);
  }

  lemma AlikeTransitive(d: Dims, x: Store, y: Store, z: Store)
    requires ReadAlike(d, x, y) && ReadAlike(d, y, z)
    ensures ReadAlike(d, x, z)
  {
    hide PageOf;
    forall a ensures PageOf(d, x, a) == PageOf(d, z, a) {
      assert PageOf(d, x, a) == PageOf(d, y, a);
    }
  }

  /** What a completed turn of the worker answers: the next command pushed, as in sequential
      execution of everything pushed. */
  lemma {:induction false} TurnAnswers(d: Dims, s: Chip)
    requires ChipInv(d, s) && s.worker.Busy?
    ensures GoodTask(d, s.worker.task) && |s.replies| < |s.pushed|
    ensures Execute(d, s.store, s.worker.task).reply == RunSerial(d, s.pushed).replies[|s.replies|]
  {
    InHandIsGood(d, s);
    ServeKeeps(d, s, s.worker.task);
    var s' := WorkerTurn(d, s);
    SerialPrefix(d, s.pushed, |s'.replies|);
    hide Execute, RunSerial;
    assert s'.replies == RunSerial(d, s.pushed).replies[..|s'.replies|];
  }

  /** The chip's fields, with `model`, the state of the interleaving model they stand for. Each
      method is one atomic step of that model, so every interleaving of calls is a behaviour. */
  class NandChip {
    const d: Dims
    var pages: map<ChipAddr, Bytes>
    var commandQueue: seq<Task>
    var stopFlag: bool
    var worker: Worker
    ghost var model: Chip

    ghost predicate Valid()
      reads this
    {
      && ChipInv(d, model)
      && model.queue == commandQueue && model.stop == stopFlag && model.worker == worker
      && ReadAlike(d, pages, model.store)
    }

    constructor (d: Dims)
      ensures this.d == d && Valid() && model == NEW_CHIP
    {
      this.d, pages, commandQueue, stopFlag, worker := d, map[], [], false, AtHead;
      model := NEW_CHIP;
    }

    /** The future of the command is the reply at position `ticket`: what sequential execution of
        the commands pushed up to now answers there. */
    method PushCommand(t: Task) returns (ghost ticket: nat)
      requires Valid() && GoodTask(d, t)
      modifies this`commandQueue, this`model
      ensures Valid() && Applied(d, old(model), Push(t), model)
      ensures ticket == |old(model).pushed| && ticket >= |model.replies| && model.pushed[ticket] == t
    {
      hide RunSerial;
      InHandIsGood(d, model);
      PushKeeps(d, model, t);
      ticket := |model.pushed|;
      commandQueue := commandQueue + [t];
      model := model.(queue := model.queue + [t], pushed := model.pushed + [t]);
    }

    /** The destructor raises the stop flag. */
    method StopWorker()
      requires Valid()
      modifies this`stopFlag, this`model
      ensures Valid() && Applied(d, old(model), Stop, model)
    {
      InHandIsGood(d, model);
      stopFlag := true;
      model := model.(stop := true);
    }

    /** One atomic section of the worker loop: the test of the stop flag, the wait that takes a
        command, or the execution that fulfils its promise. A fulfilled promise holds what the
        next command pushed gets in sequential execution of all commands pushed. */
    method WorkerTurn() returns (reply: Option<Reply>)
      requires Valid()
      modifies this
      ensures Valid() && Applied(d, old(model), Turn, model)
      ensures reply.Some? <==> old(worker).Busy?
      ensures old(worker) == AtHead ==> worker == if stopFlag then Exited else Waiting
      ensures old(worker) == Waiting && old(commandQueue) != [] ==>
                worker == Busy(old(commandQueue)[0]) && commandQueue == old(commandQueue)[1..]
      ensures old(worker) == Waiting && old(commandQueue) == [] ==>
                worker == (if stopFlag then Exited else Waiting) && commandQueue == []
      ensures reply.Some? ==>
                var i := |old(model).replies|;
                && GoodTasks(d, model.pushed) && i < |model.pushed|
                && reply.value == RunSerial(d, model.pushed).replies[i]
    {
      hide RunSerial, Execute;
      InHandIsGood(d, model);
      StepKeeps(d, model, Turn);
      reply := None;
      match worker {
        case AtHead =>
          worker := if stopFlag then Exited else Waiting;
        case Waiting =>
          if commandQueue != [] {
            worker := Busy(commandQueue[0]);
            commandQueue := commandQueue[1..];
          } else if stopFlag {
            worker := Exited;
          }
        case Busy(t) =>
          ghost var before := pages;
          TurnAnswers(d, model);
          ExecuteAlike(d, before, model.store, t);
          var answer := ServeTask(t);
          AlikeTransitive(d, pages, Execute(d, before, t).store, Execute(d, model.store, t).store);
          worker := AtHead;
          reply := Some(answer);
        case Exited =>
      }
      model := Apply(d, model, Turn);
    }

    /** The switch of the worker loop. */
    method ServeTask(t: Task) returns (reply: Reply)
      requires GoodTask(d, t)
      modifies this`pages
      ensures reply == Execute(d, old(pages), t).reply
      ensures ReadAlike(d, pages, Execute(d, old(pages), t).store)
    {
      var status := -1;
      match t.cmd
      case Read =>
        var buf;
        status, buf := ReadPage(t.addr);
        reply := Reply(Read, status, buf);
      case Program =>
        status := WritePage(t.addr, Some(t.data));
        reply := Reply(Program, status, []);
      case Erase =>
        status := EraseBlock(t.addr);
        reply := Reply(Erase, status, []);
      case NoCommand =>
        reply := Reply(NoCommand, -1, []);
    }

    method ReadPage(addr: Option<ChipAddr>) returns (status: int, data: Bytes)
      ensures Effect(pages, Reply(Read, status, data)) == Execute(d, pages, Task(Read, addr, []))
    {
      data := Blank(d);
      if addr == None || !PageInRange(d, addr.value) {
        return -1, data;
      }
      status, data := 0, PageOf(d, pages, addr.value);
    }

    /** Null data is refused; other data must hold a page, because that much is copied. */
    method WritePage(addr: Option<ChipAddr>, data: Option<Bytes>) returns (status: int)
      requires data.Some? ==> |data.value| >= d.pageSize
      modifies this`pages
      ensures data.Some? ==>
                Effect(pages, Reply(Program, status, [])) == Execute(d, old(pages), Task(Program, addr, data.value))
      ensures data == None ==> status == -1 && pages == old(pages)
    {
      if addr == None || data == None {
        return -1;
      }
      if !PageInRange(d, addr.value) {
        return -1;
      }
      pages := pages[addr.value := data.value[..d.pageSize]];
      status := 0;
    }

    /** Every page of the block is filled with erased bytes. */
    method EraseBlock(addr: Option<ChipAddr>) returns (status: int)
      modifies this`pages
      ensures status == if addr.Some? && BlockInRange(d, addr.value) then 0 else -1
      ensures ReadAlike(d, pages, Execute(d, old(pages), Task(Erase, addr, [])).store)
    {
      if addr == None || !BlockInRange(d, addr.value) {
        return -1;
      }
      var a := addr.value;
      var page := 0;
      hide Blank;
      while page < d.pages
        invariant 0 <= page <= d.pages
        invariant forall x ::
                    PageOf(d, pages, x) == if SameBlock(x, a) && x.page < page then Blank(d)
                      else PageOf(d, old(pages), x)
      {
        pages := pages[ChipAddr(a.die, a.plane, a.block, page) := Blank(d)];
        page := page + 1;
      }
      status := 0;
    }
  }
}
