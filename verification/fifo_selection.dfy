/** The first-in-first-out policy: its queue holds the blocks of a plane in the order in which they
    were put to use, whatever they are used for. */
module FifoSelection {
  import opened FlashTypes
  import opened FreePool
  import opened PlaneModel
  import opened PlaneProofs
  import opened Marks
  import opened InitialPlanes
  import opened PlaneRuns
  import opened DeviceModel
  import opened FtlModel
  import opened FtlRuns
  import opened DeviceRuns
  import opened GcWl

  /** The queue after an allocation: a block opened is appended, and a collection check that is due
      pops the front. */
  ghost function QueueAfter(c: Config, pl: Plane, opened': nat): seq<nat> {
    var queue := pl.history + [opened'];
    if |pl.pool| - 1 < c.gcThreshold && |pl.erasing| < c.maxGc && c.policy == Fifo then queue[1..] else queue
  }

  lemma AllocateQueues(c: Config, pl: Plane, slot: Slot)
    requires AllocReady(pl, slot) && Allocate(c, pl, slot).Allocated?
    ensures var r := Allocate(c, pl, slot);
            && r.plane.erasing == pl.erasing
            && (r.page + 1 != c.pagesPerBlock ==> r.plane.history == pl.history)
            && (r.page + 1 == c.pagesPerBlock ==>
                  pl.pool != [] && r.plane.history == QueueAfter(c, pl, pl.pool[0].block))
  {
  }

  /** The step opens a block and its collection check is due under this policy. */
  ghost predicate Pops(c: Config, pl: Plane, step: PlaneStep) {
    && c.policy == Fifo
    && PlaneExec(c, pl, step).Reached?
    && Due(c, PlaneExec(c, pl, step).plane)
    && exists b :: Opened(b) in PlaneExec(c, pl, step).log
  }

  ghost function PopCount(c: Config, pl: Plane, steps: seq<PlaneStep>): nat {
    if steps == [] then 0
    else
      PopCount(c, pl, steps[..|steps| - 1])
      + match RunPlane(c, pl, steps[..|steps| - 1])
        case Stuck => 0
        case Reached(pl1, _) => if Pops(c, pl1, steps[|steps| - 1]) then 1 else 0
  }

  ghost predicate QueueInPlane(pl: Plane) {
    forall i :: 0 <= i < |pl.history| ==> pl.history[i] < |pl.blocks|
  }

  /** What one step does to the queue. */
  lemma StepQueues(c: Config, pl: Plane, step: PlaneStep)
    requires PlaneExec(c, pl, step).Reached?
    ensures var r := PlaneExec(c, pl, step);
            && |r.plane.blocks| == |pl.blocks|
            && (QueueInPlane(pl) ==> QueueInPlane(r.plane))
            && var queue := pl.history + OpenedBlocks(r.log);
               if Pops(c, pl, step) then OpenedBlocks(r.log) != [] && r.plane.history == queue[1..]
               else r.plane.history == queue
  {
    match step
    case Take(slot) =>
      AllocateChanges(c, pl, slot);
      AllocateQueues(c, pl, slot);
      hide Allocate;
      TakeOpens(c, pl, slot);
    case Drop(b, page) => assert pl.history + [] == pl.history;
    case Return(b) =>
      assert OpenedBlocks([Wiped(b)]) == [] by { Snoc([], Wiped(b), 0); }
      hide Insert;
      assert pl.history + [] == pl.history;
    case Stamp(b, m) => assert pl.history + [] == pl.history;
  }

  lemma OpenedOnly(block: nat, page: nat, next: nat)
    ensures OpenedBlocks([Handed(block, page)]) == []
    ensures OpenedBlocks([Handed(block, page), Opened(next)]) == [next]
  {
    Snoc([], Handed(block, page), 0);
    Snoc([Handed(block, page)], Opened(next), 0);
    assert [] + [Handed(block, page)] == [Handed(block, page)];
    assert [Handed(block, page)] + [Opened(next)] == [Handed(block, page), Opened(next)];
  }

  lemma TakeOpens(c: Config, pl: Plane, slot: Slot)
    requires PlaneExec(c, pl, Take(slot)).Reached?
    ensures var r := Allocate(c, pl, slot); var log := PlaneExec(c, pl, Take(slot)).log;
            && OpenedBlocks(log) == (if r.page + 1 == c.pagesPerBlock && pl.pool != [] then [pl.pool[0].block] else [])
            && (Pops(c, pl, Take(slot))
                <==> c.policy == Fifo && Due(c, r.plane) && r.page + 1 == c.pagesPerBlock && pl.pool != [])
  {
    hide Allocate, OpenedBlocks;
    var r := Allocate(c, pl, slot);
    if r.page + 1 == c.pagesPerBlock && pl.pool != [] {
      OpenedOnly(r.block, r.page, pl.pool[0].block);
      assert Opened(pl.pool[0].block) in PlaneExec(c, pl, Take(slot)).log;
    } else {
      OpenedOnly(r.block, r.page, 0);
    }
  }

  lemma {:induction false} OpenedConcat(log: seq<Event>, more: seq<Event>)
    ensures OpenedBlocks(log + more) == OpenedBlocks(log) + OpenedBlocks(more)
  {
    var all := log + more;
    if more == [] {
      assert all == log;
    } else {
      OpenedConcat(log, more[..|more| - 1]);
      assert all[..|all| - 1] == log + more[..|more| - 1];
    }
  }

  lemma DropThenAppend(queue: seq<nat>, more: seq<nat>, n: nat)
    requires n <= |queue|
    ensures queue[n..] + more == (queue + more)[n..]
  {
  }

  lemma DropOneMore(queue: seq<nat>, n: nat)
    requires n < |queue|
    ensures queue[n..][1..] == queue[n + 1..]
  {
  }

  lemma QueueMoves(first: seq<nat>, used: seq<nat>, more: seq<nat>, n: nat, pops: bool, queue: seq<nat>,
                   queue': seq<nat>)
    requires n <= |used| && queue == (first + used)[n..] && (pops ==> more != [])
    requires queue' == if pops then (queue + more)[1..] else queue + more
    ensures var n' := if pops then n + 1 else n; n' <= |used + more| && queue' == (first + (used + more))[n'..]
  {
    var all := first + (used + more);
    DropThenAppend(first + used, more, n);
    assert first + used + more == all;
    if pops { DropOneMore(all, n); }
  }

  /** Over every run the queue is what was put to use, in order, without as many from the front as
      there were collection checks due: the policy serves blocks strictly in order of use. */
  lemma {:induction false} QueueIsUseOrder(c: Config, pl0: Plane, steps: seq<PlaneStep>)
    requires RunPlane(c, pl0, steps).Reached? && QueueInPlane(pl0)
    ensures var r := RunPlane(c, pl0, steps); var n := PopCount(c, pl0, steps);
            && |r.plane.blocks| == |pl0.blocks| && QueueInPlane(r.plane)
            && n <= |OpenedBlocks(r.log)|
            && r.plane.history == (pl0.history + OpenedBlocks(r.log))[n..]
  {
    if steps == [] {
      assert pl0.history + [] == pl0.history;
    } else {
      hide PlaneExec, Pops, OpenedBlocks, QueueInPlane;
      QueueIsUseOrder(c, pl0, steps[..|steps| - 1]);
      var before := RunPlane(c, pl0, steps[..|steps| - 1]);
      var last := steps[|steps| - 1];
      StepQueues(c, before.plane, last);
      var after := PlaneExec(c, before.plane, last);
      OpenedConcat(before.log, after.log);
      QueueMoves(pl0.history, OpenedBlocks(before.log), OpenedBlocks(after.log), PopCount(c, pl0, steps[..|steps| - 1]),
                 Pops(c, before.plane, last), before.plane.history, after.plane.history);
    }
  }

  /** In every plane, over every run of the translation layer from the constructed device. */
  lemma {:induction false} QueuesInUseOrder(c: Config, ids: set<PlaneId>, keys: set<Key>, steps: seq<Step>, p: PlaneId)
    requires GoodDevice(c, ids, keys) && p in ids && Run(c, Initial(c, ids, keys), steps).At?
    ensures var st0 := Initial(c, ids, keys); var st := Run(c, st0, steps).st;
            var used := InitialPlane(c).history + OpenedBlocks(EventsIn(History(c, st0, steps), p));
            var n := PopCount(c, InitialPlane(c), StepsIn(Trace(c, st0, steps), p));
            && p in st.planes && n <= |used| && st.planes[p].history == used[n..] && QueueInPlane(st.planes[p])
  {
    hide FtlInv, Contents, RunOps, RunPlane, InitialPlane, PopCount, OpenedBlocks, QueueInPlane;
    var st0 := Initial(c, ids, keys);
    InitialInv(c, ids, keys);
    FreshQueue(c);
    RunIsOps(c, st0, steps);
    RunsProject(c, st0.planes, Trace(c, st0, steps), p);
    QueueIsUseOrder(c, InitialPlane(c), StepsIn(Trace(c, st0, steps), p));
  }

  lemma FreshQueue(c: Config)
    requires GoodConfig(c) && 3 * c.streams <= c.blocksPerPlane
    ensures QueueInPlane(InitialPlane(c))
  {
    OpenStreamsInOrder(c, c.streams);
    hide OpenStreams, FreshPlane;
  }

  /** What the policy chooses may be collected exactly if it is full and unmarked. */
  lemma FifoIsCollectable(c: Config, pl: Plane, size: nat, least: nat, drawn: seq<nat>, r: Option<nat>,
                          sample: set<nat>, left: seq<nat>)
    requires PlaneInv(c, pl) && pl.history != [] && QueueInPlane(pl) && c.policy == Fifo && Due(c, pl)
    requires Chosen(c, pl, size, least, drawn, r, sample, left)
    ensures r == Some(pl.history[0])
    ensures Collectable(pl, c.pagesPerBlock, pl.history[0])
            <==> var b := pl.blocks[pl.history[0]]; b.written == c.pagesPerBlock && b.ongoingPrograms <= 0 && !b.gc
  {
    if Full(pl, pl.history[0], c.pagesPerBlock) { FullBlockIsClosed(c, pl, pl.history[0]); }
    hide PlaneInv;
  }
}
