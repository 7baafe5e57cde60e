/** Runs of one plane under all three allocators: programming order, wear and pool order. */
module PlaneRuns {
  import opened FlashTypes
  import opened FreePool
  import opened PlaneModel
  import opened PlaneProofs
  import opened Marks
  import opened InitialPlanes

  datatype PlaneStep =
    | Take(slot: Slot)
    | Drop(block: nat, page: nat)
    | Return(block: nat)
    | Stamp(block: nat, mark: Mark)

  /** What a run does to the blocks: a page is handed out, a block is opened, a block is wiped. */
  datatype Event = Handed(block: nat, page: nat) | Opened(block: nat) | Wiped(block: nat)

  datatype PlaneRun = Stuck | Reached(plane: Plane, log: seq<Event>)

  /** An allocation hands out a page and, when that fills the block, opens the next one. */
  ghost function TakeEvents(c: Config, pl: Plane, slot: Slot, block: nat, page: nat): seq<Event> {
    if page + 1 == c.pagesPerBlock && pl.pool != [] then [Handed(block, page), Opened(pl.pool[0].block)]
    else [Handed(block, page)]
  }

  /** One step: any allocator; the invalidation of a live page; the erase of a fully
      invalidated block; a counter or flag. Anything else is stuck. */
  ghost function PlaneExec(c: Config, pl: Plane, step: PlaneStep): PlaneRun {
    match step
    case Take(slot) =>
      if slot.stream >= c.streams || !AllocReady(pl, slot) then Stuck
      else
        (match Allocate(c, pl, slot)
         case AllocFailed(_) => Stuck
         case Allocated(pl', b, page) => Reached(pl', TakeEvents(c, pl, slot, b, page)))
    case Drop(b, page) =>
      if !LiveIn(pl, b, page) then Stuck
      else
        (match Invalidate(pl, pl.blocks[b].stream, b, page)
         case PlaneFailed(_) => Stuck
         case PlaneOkay(pl') => Reached(pl', []))
    case Return(b) =>
      if !FullyInvalid(c, pl, b) then Stuck
      else
        (match Erase(c, pl, b)
         case PlaneFailed(_) => Stuck
         case PlaneOkay(pl') => Reached(pl', [Wiped(b)]))
    case Stamp(b, m) => if b < |pl.blocks| then Reached(MarkedIn(pl, b, m), []) else Stuck
  }

  ghost function RunPlane(c: Config, pl: Plane, steps: seq<PlaneStep>): PlaneRun {
    if steps == [] then Reached(pl, [])
    else
      match RunPlane(c, pl, steps[..|steps| - 1])
      case Stuck => Stuck
      case Reached(pl1, log) =>
        match PlaneExec(c, pl1, steps[|steps| - 1])
        case Stuck => Stuck
        case Reached(pl2, events) => Reached(pl2, log + events)
  }

  // ----- what a log says -----

  /** Pages handed out from block `b` since it was last wiped. */
  ghost function PagesSince(log: seq<Event>, b: nat): nat {
    if log == [] then 0
    else
      var before := PagesSince(log[..|log| - 1], b);
      match log[|log| - 1]
      case Handed(x, _) => if x == b then before + 1 else before
      case Wiped(x) => if x == b then 0 else before
      case Opened(_) => before
  }

  ghost function Wipes(log: seq<Event>): nat {
    if log == [] then 0
    else Wipes(log[..|log| - 1]) + if log[|log| - 1].Wiped? then 1 else 0
  }

  ghost function WipedBlocks(log: seq<Event>): seq<nat> {
    if log == [] then []
    else
      WipedBlocks(log[..|log| - 1]) + if log[|log| - 1].Wiped? then [log[|log| - 1].block] else []
  }

  ghost function OpenedBlocks(log: seq<Event>): seq<nat> {
    if log == [] then []
    else
      OpenedBlocks(log[..|log| - 1]) + if log[|log| - 1].Opened? then [log[|log| - 1].block] else []
  }

  /** Every page handed out is the next one of its block. */
  ghost predicate InOrder(pages: nat, log: seq<Event>) {
    forall i :: 0 <= i < |log| && log[i].Handed? ==> log[i].page == PagesSince(log[..i], log[i].block) < pages
  }

  lemma {:induction false} InOrderSnoc(pages: nat, log: seq<Event>, e: Event)
    requires InOrder(pages, log)
    requires e.Handed? ==> e.page == PagesSince(log, e.block) < pages
    ensures InOrder(pages, log + [e])
  {
    var longer := log + [e];
    forall i | 0 <= i < |longer| && longer[i].Handed?
      ensures longer[i].page == PagesSince(longer[..i], longer[i].block) < pages
    {
      assert longer[..i] == log[..i];
      if i == |log| { assert log[..i] == log; }
    }
  }

  lemma {:induction false} Snoc(log: seq<Event>, e: Event, b: nat)
    ensures PagesSince(log + [e], b)
            == match e
               case Handed(x, _) => if x == b then PagesSince(log, b) + 1 else PagesSince(log, b)
               case Wiped(x) => if x == b then 0 else PagesSince(log, b)
               case Opened(_) => PagesSince(log, b)
    ensures Wipes(log + [e]) == Wipes(log) + if e.Wiped? then 1 else 0
    ensures WipedBlocks(log + [e]) == if e.Wiped? then WipedBlocks(log) + [e.block] else WipedBlocks(log)
    ensures OpenedBlocks(log + [e]) == if e.Opened? then OpenedBlocks(log) + [e.block] else OpenedBlocks(log)
  {
    assert (log + [e])[..|log|] == log;
  }

  /** While a block is not wiped, its count of handed-out pages does not go down. */
  lemma {:induction false} CountGrows(log: seq<Event>, b: nat, i: nat, j: nat)
    requires i <= j <= |log|
    requires forall m :: i <= m < j ==> log[m] != Wiped(b)
    ensures PagesSince(log[..i], b) <= PagesSince(log[..j], b)
  {
    if i < j {
      CountGrows(log, b, i, j - 1);
      assert log[..j][..j - 1] == log[..j - 1];
    }
  }

  /** In such a log no page is handed out twice without its block being wiped in between. */
  lemma NoRepeatWithoutWipe(pages: nat, log: seq<Event>, i: nat, j: nat)
    requires InOrder(pages, log) && i < j < |log|
    requires log[i].Handed? && log[i] == log[j]
    ensures exists m :: i < m < j && log[m] == Wiped(log[i].block)
  {
    var b := log[i].block;
    assert log[..i + 1] == log[..i] + [log[i]];
    Snoc(log[..i], log[i], b);
    if forall m :: i < m < j ==> log[m] != Wiped(b) {
      CountGrows(log, b, i + 1, j);
    }
  }

  // ----- the run invariant -----

  ghost function PoolIds(pool: seq<PoolEntry>): (r: seq<nat>)
    ensures |r| == |pool| && forall i :: 0 <= i < |pool| ==> r[i] == pool[i].block
  {
    seq(|pool|, i requires 0 <= i < |pool| => pool[i].block)
  }

  /** Write indices are the pages handed out, in order, since the last wipe. */
  ghost predicate WritesExplained(c: Config, pl: Plane, log: seq<Event>) {
    && InOrder(c.pagesPerBlock, log)
    && forall b: nat :: b < |pl.blocks| ==> pl.blocks[b].written == PagesSince(log, b)
  }

  /** Erase counts add up to the wipes. */
  ghost predicate WearExplained(c: Config, pl0: Plane, pl: Plane, log: seq<Event>) {
    Tally(c.pagesPerBlock, pl.blocks).erases == Tally(c.pagesPerBlock, pl0.blocks).erases + Wipes(log)
  }

  /** Without dynamic wear levelling, the blocks opened so far followed by the pool are the
      blocks of the first pool followed by those wiped so far: first in, first out. */
  ghost predicate OrderExplained(c: Config, pl0: Plane, pl: Plane, log: seq<Event>) {
    !c.dynamicWl ==> OpenedBlocks(log) + PoolIds(pl.pool) == PoolIds(pl0.pool) + WipedBlocks(log)
  }

  ghost predicate Explains(c: Config, pl0: Plane, pl: Plane, log: seq<Event>) {
    && PlaneInv(c, pl)
    && WritesExplained(c, pl, log)
    && WearExplained(c, pl0, pl, log)
    && OrderExplained(c, pl0, pl, log)
  }

  lemma {:induction false} SameErases(pages: nat, blocks: seq<Block>, blocks': seq<Block>)
    requires |blocks'| == |blocks|
    requires forall i :: 0 <= i < |blocks| ==> blocks'[i].eraseCount == blocks[i].eraseCount
    ensures Tally(pages, blocks').erases == Tally(pages, blocks).erases
  {
    if blocks != [] { SameErases(pages, blocks[1..], blocks'[1..]); }
  }

  // Each elementary event, seen by each of the three predicates.

  lemma HandedWrites(c: Config, pl: Plane, pl': Plane, b: nat, log: seq<Event>)
    requires WritesExplained(c, pl, log) && |pl'.blocks| == |pl.blocks| && b < |pl.blocks|
    requires pl.blocks[b].written < c.pagesPerBlock
    requires forall x: nat :: x < |pl.blocks| ==>
               pl'.blocks[x].written == if x == b then pl.blocks[b].written + 1 else pl.blocks[x].written
    ensures WritesExplained(c, pl', log + [Handed(b, pl.blocks[b].written)])
  {
    InOrderSnoc(c.pagesPerBlock, log, Handed(b, pl.blocks[b].written));
    hide InOrder, PagesSince;
    forall x: nat { Snoc(log, Handed(b, pl.blocks[b].written), x); }
  }

  lemma OpenedWrites(c: Config, pl: Plane, b: nat, log: seq<Event>)
    requires WritesExplained(c, pl, log)
    ensures WritesExplained(c, pl, log + [Opened(b)])
  {
    InOrderSnoc(c.pagesPerBlock, log, Opened(b));
    hide InOrder, PagesSince;
    forall x: nat { Snoc(log, Opened(b), x); }
  }

  lemma WipedWrites(c: Config, pl: Plane, pl': Plane, b: nat, log: seq<Event>)
    requires WritesExplained(c, pl, log) && |pl'.blocks| == |pl.blocks|
    requires forall x: nat :: x < |pl.blocks| ==> pl'.blocks[x].written == if x == b then 0 else pl.blocks[x].written
    ensures WritesExplained(c, pl', log + [Wiped(b)])
  {
    InOrderSnoc(c.pagesPerBlock, log, Wiped(b));
    hide InOrder, PagesSince;
    forall x: nat { Snoc(log, Wiped(b), x); }
  }

  lemma HandedOthers(c: Config, pl0: Plane, pl: Plane, pl': Plane, b: nat, page: nat, log: seq<Event>)
    requires WearExplained(c, pl0, pl, log) && OrderExplained(c, pl0, pl, log)
    requires pl'.pool == pl.pool && |pl'.blocks| == |pl.blocks|
    requires forall x: nat :: x < |pl.blocks| ==> pl'.blocks[x].eraseCount == pl.blocks[x].eraseCount
    ensures WearExplained(c, pl0, pl', log + [Handed(b, page)]) && OrderExplained(c, pl0, pl', log + [Handed(b, page)])
  {
    SameErases(c.pagesPerBlock, pl.blocks, pl'.blocks);
    Snoc(log, Handed(b, page), b);
    hide Tally, PoolIds, Wipes, OpenedBlocks, WipedBlocks;
  }

  lemma OpenedOthers(c: Config, pl0: Plane, pl: Plane, pl': Plane, log: seq<Event>)
    requires WearExplained(c, pl0, pl, log) && OrderExplained(c, pl0, pl, log)
    requires pl.pool != [] && pl'.pool == pl.pool[1..] && pl'.blocks == pl.blocks
    ensures WearExplained(c, pl0, pl', log + [Opened(pl.pool[0].block)])
    ensures OrderExplained(c, pl0, pl', log + [Opened(pl.pool[0].block)])
  {
    hide Tally, PoolIds, Wipes, OpenedBlocks, WipedBlocks, PagesSince;
    Snoc(log, Opened(pl.pool[0].block), 0);
    PoolFront(pl.pool);
    Regroup(OpenedBlocks(log), [pl.pool[0].block], PoolIds(pl.pool[1..]));
  }

  lemma PoolFront(pool: seq<PoolEntry>)
    requires pool != []
    ensures PoolIds(pool) == [pool[0].block] + PoolIds(pool[1..])
  {
  }

  lemma Regroup(a: seq<nat>, b: seq<nat>, c: seq<nat>)
    ensures a + (b + c) == a + b + c
  {
  }

  lemma WipedOthers(c: Config, pl0: Plane, pl: Plane, pl': Plane, b: nat, log: seq<Event>)
    requires WearExplained(c, pl0, pl, log) && OrderExplained(c, pl0, pl, log)
    requires b < |pl.blocks| && pl'.blocks == pl.blocks[b := Erased(pl.blocks[b])]
    requires !c.dynamicWl ==> PoolIds(pl'.pool) == PoolIds(pl.pool) + [b]
    ensures WearExplained(c, pl0, pl', log + [Wiped(b)]) && OrderExplained(c, pl0, pl', log + [Wiped(b)])
  {
    hide Tally, PoolIds, Wipes, OpenedBlocks, WipedBlocks;
    TallyUpdate(c.pagesPerBlock, pl.blocks, b, Erased(pl.blocks[b]));
    Snoc(log, Wiped(b), b);
    Regroup(OpenedBlocks(log), PoolIds(pl.pool), [b]);
    assert PoolIds(pl0.pool) + (WipedBlocks(log) + [b]) == PoolIds(pl0.pool) + WipedBlocks(log) + [b];
  }

  ghost predicate LogExplained(c: Config, pl0: Plane, pl: Plane, log: seq<Event>) {
    WritesExplained(c, pl, log) && WearExplained(c, pl0, pl, log) && OrderExplained(c, pl0, pl, log)
  }

  lemma TakeLogged(c: Config, pl0: Plane, pl: Plane, slot: Slot, pl': Plane, b: nat, page: nat, log: seq<Event>)
    requires LogExplained(c, pl0, pl, log)
    requires AllocReady(pl, slot) && AllocEffect(c, pl, slot, pl', b, page) && page < c.pagesPerBlock
    ensures LogExplained(c, pl0, pl', log + TakeEvents(c, pl, slot, b, page))
  {
    hide WritesExplained, WearExplained, OrderExplained;
    var log1 := log + [Handed(b, page)];
    var pl1 := pl'.(pool := pl.pool);
    HandedWrites(c, pl, pl1, b, log);
    HandedOthers(c, pl0, pl, pl1, b, page, log);
    if page + 1 == c.pagesPerBlock {
      OpenedOthers(c, pl0, pl1, pl', log1);
      SameBlocksWrites(c, pl1, pl', log1);
      OpenedWrites(c, pl', pl.pool[0].block, log1);
      assert log1 + [Opened(pl.pool[0].block)] == log + TakeEvents(c, pl, slot, b, page);
    } else {
      assert pl1 == pl';
    }
  }

  lemma TakeExplains(c: Config, pl0: Plane, pl: Plane, slot: Slot, log: seq<Event>)
    requires Explains(c, pl0, pl, log) && PlaneExec(c, pl, Take(slot)).Reached?
    ensures var r := PlaneExec(c, pl, Take(slot)); Explains(c, pl0, r.plane, log + r.log)
  {
    AllocateKeeps(c, pl, slot);
    PlaneIsReady(c, pl, SlotsBelow(c.streams), slot);
    AllocateChanges(c, pl, slot);
    hide PlaneInv, Allocate, WritesExplained, WearExplained, OrderExplained, TakeEvents, AllocReady;
    var r := Allocate(c, pl, slot);
    TakeLogged(c, pl0, pl, slot, r.plane, r.block, r.page, log);
  }

  lemma SameBlocksWrites(c: Config, pl: Plane, pl': Plane, log: seq<Event>)
    requires WritesExplained(c, pl, log) && |pl'.blocks| == |pl.blocks|
    requires forall x: nat :: x < |pl.blocks| ==> pl'.blocks[x].written == pl.blocks[x].written
    ensures WritesExplained(c, pl', log)
  {
  }

  lemma DropExplains(c: Config, pl0: Plane, pl: Plane, b: nat, page: nat, log: seq<Event>)
    requires Explains(c, pl0, pl, log) && PlaneExec(c, pl, Drop(b, page)).Reached?
    ensures var r := PlaneExec(c, pl, Drop(b, page)); Explains(c, pl0, r.plane, log + r.log)
  {
    hide PlaneOk, InOrder, PagesSince, Tally, OpenedBlocks, WipedBlocks, PoolIds;
    InvalidateKeeps(c, pl, SlotsBelow(c.streams), pl.blocks[b].stream, b, page);
    hide PlaneInv;
    var pl' := Invalidate(pl, pl.blocks[b].stream, b, page).plane;
    SameErases(c.pagesPerBlock, pl.blocks, pl'.blocks);
    assert log + [] == log;
  }

  lemma StampExplains(c: Config, pl0: Plane, pl: Plane, b: nat, m: Mark, log: seq<Event>)
    requires Explains(c, pl0, pl, log) && PlaneExec(c, pl, Stamp(b, m)).Reached?
    ensures var r := PlaneExec(c, pl, Stamp(b, m)); Explains(c, pl0, r.plane, log + r.log)
  {
    hide PlaneOk, InOrder, PagesSince, Tally, OpenedBlocks, WipedBlocks, PoolIds;
    MarkKeeps(c, pl, SlotsBelow(c.streams), b, Marked(pl.blocks[b], m));
    hide PlaneInv;
    SameErases(c.pagesPerBlock, pl.blocks, MarkedIn(pl, b, m).blocks);
    assert log + [] == log;
  }

  /** A returned block goes to the back of the pool when wear is not considered. */
  lemma ReturnIsFifo(c: Config, pl: Plane, b: nat)
    requires PlaneInv(c, pl) && !c.dynamicWl && FullyInvalid(c, pl, b)
    ensures Erase(c, pl, b).PlaneOkay? && PoolIds(Erase(c, pl, b).plane.pool) == PoolIds(pl.pool) + [b]
  {
    hide Insert, BlocksOk, CountersOk, OpenOk, Partitioned;
    EraseKeeps(c, pl, b);
    InsertIsFifo(pl.pool, PoolEntry(0, b));
    hide PlaneInv;
  }

  lemma ReturnExplains(c: Config, pl0: Plane, pl: Plane, b: nat, log: seq<Event>)
    requires Explains(c, pl0, pl, log) && PlaneExec(c, pl, Return(b)).Reached?
    ensures var r := PlaneExec(c, pl, Return(b)); Explains(c, pl0, r.plane, log + r.log)
  {
    var pl' := Erase(c, pl, b).plane;
    EraseKeeps(c, pl, b);
    if !c.dynamicWl { ReturnIsFifo(c, pl, b); }
    hide PlaneInv, PoolIds, InPool, Insert, WritesExplained, WearExplained, OrderExplained;
    WipedWrites(c, pl, pl', b, log);
    WipedOthers(c, pl0, pl, pl', b, log);
  }

  /** Over every run of the three allocators, invalidations, erases and marks, from any plane whose
      blocks are unwritten: the invariant holds, every block's pages are handed out in order
      from 0 after each wipe, the erase counts add up to the wipes, and without dynamic wear
      levelling blocks are opened in exactly the order in which they entered the pool. */
  lemma {:induction false} RunExplained(c: Config, pl0: Plane, steps: seq<PlaneStep>)
    requires PlaneInv(c, pl0) && RunPlane(c, pl0, steps).Reached?
    requires forall i :: 0 <= i < |pl0.blocks| ==> pl0.blocks[i].written == 0
    ensures var r := RunPlane(c, pl0, steps); Explains(c, pl0, r.plane, r.log)
  {
    if steps == [] {
      assert InOrder(c.pagesPerBlock, []);
      hide PlaneInv, InOrder;
      assert OpenedBlocks([]) + PoolIds(pl0.pool) == PoolIds(pl0.pool) + WipedBlocks([]);
    } else {
      var last := steps[|steps| - 1];
      RunExplained(c, pl0, steps[..|steps| - 1]);
      var before := RunPlane(c, pl0, steps[..|steps| - 1]);
      hide PlaneInv, Explains;
      match last
      case Take(slot) => TakeExplains(c, pl0, before.plane, slot, before.log);
      case Drop(b, page) => DropExplains(c, pl0, before.plane, b, page, before.log);
      case Return(b) => ReturnExplains(c, pl0, before.plane, b, before.log);
      case Stamp(b, m) => StampExplains(c, pl0, before.plane, b, m, before.log);
    }
  }

  /** Program-once: over every run, across all streams and all three kinds of open block, no
      page of a block is handed out twice unless the block was wiped in between. */
  lemma {:induction false} ProgramOnce(c: Config, pl0: Plane, steps: seq<PlaneStep>, i: nat, j: nat)
    requires PlaneInv(c, pl0) && RunPlane(c, pl0, steps).Reached?
    requires forall x :: 0 <= x < |pl0.blocks| ==> pl0.blocks[x].written == 0
    requires i < j < |RunPlane(c, pl0, steps).log|
    ensures var log := RunPlane(c, pl0, steps).log;
            log[i].Handed? && log[i] == log[j] ==> exists m :: i < m < j && log[m] == Wiped(log[i].block)
  {
    RunExplained(c, pl0, steps);
    var log := RunPlane(c, pl0, steps).log;
    if log[i].Handed? && log[i] == log[j] {
      assert WritesExplained(c, RunPlane(c, pl0, steps).plane, log);
      NoRepeatWithoutWipe(c.pagesPerBlock, log, i, j);
    }
    hide PlaneInv, Explains, InOrder, RunPlane;
  }

  /** With dynamic wear levelling the block opened next is a least-worn free block. */
  lemma LeastWornIsNext(c: Config, pl: Plane, b: nat)
    requires PlaneInv(c, pl) && c.dynamicWl && InPool(pl.pool, b)
    ensures pl.pool != [] && pl.pool[0].block < |pl.blocks| && b < |pl.blocks|
    ensures pl.blocks[pl.pool[0].block].eraseCount <= pl.blocks[b].eraseCount
  {
    var i :| 0 <= i < |pl.pool| && pl.pool[i].block == b;
    FrontIsLeast(pl.pool, i);
  }

  // ----- a reachable plane that the erase as written stops -----

  /** Write the first `n` pages of stream 0's data block `b`, each overwritten at once. */
  ghost function Churn(b: nat, n: nat): seq<PlaneStep> {
    if n == 0 then [] else Churn(b, n - 1) + [Take(Slot(Data, 0)), Drop(b, n - 1)]
  }

  /** Block `b` is open for the data of stream 0, or full, and all its `n` written pages are
      invalid. */
  ghost predicate Churned(c: Config, pl: Plane, b: nat, n: nat) {
    && PlaneInv(c, pl) && pl.pool != []
    && b < |pl.blocks| && pl.blocks[b].written == n == pl.blocks[b].invalidCount
    && (n < c.pagesPerBlock ==> AllocReady(pl, Slot(Data, 0)) && pl.open[Slot(Data, 0)] == b)
  }

  lemma {:induction false} RunTwo(c: Config, pl: Plane, steps: seq<PlaneStep>, x: PlaneStep, y: PlaneStep, pl1: Plane,
                                  pl2: Plane)
    requires RunPlane(c, pl, steps).Reached? && PlaneExec(c, RunPlane(c, pl, steps).plane, x).Reached?
    requires pl1 == PlaneExec(c, RunPlane(c, pl, steps).plane, x).plane
    requires PlaneExec(c, pl1, y).Reached? && pl2 == PlaneExec(c, pl1, y).plane
    ensures RunPlane(c, pl, steps + [x, y]).Reached? && RunPlane(c, pl, steps + [x, y]).plane == pl2
  {
    hide PlaneExec;
    var s1, s2 := steps + [x], steps + [x, y];
    assert s1[..|s1| - 1] == steps && s2[..|s2| - 1] == s1;
  }

  /** One page written and invalidated. While the block does not fill, the pool stays as it is. */
  lemma ChurnOnce(c: Config, pl: Plane, b: nat, n: nat) returns (pl1: Plane, pl2: Plane)
    requires Churned(c, pl, b, n) && n < c.pagesPerBlock && c.streams >= 1
    requires n + 1 == c.pagesPerBlock ==> |pl.pool| >= 2
    ensures PlaneExec(c, pl, Take(Slot(Data, 0))).Reached? && pl1 == PlaneExec(c, pl, Take(Slot(Data, 0))).plane
    ensures PlaneExec(c, pl1, Drop(b, n)).Reached? && pl2 == PlaneExec(c, pl1, Drop(b, n)).plane
    ensures Churned(c, pl2, b, n + 1) && (n + 1 < c.pagesPerBlock ==> pl2.pool == pl.pool)
  {
    hide Churned, Allocate, Invalidate;
    pl1 := ChurnTake(c, pl, b, n);
    pl2 := ChurnDrop(c, pl1, b, n);
  }

  /** Between the two steps: page `n` of the block is live, all earlier ones are invalid. */
  ghost predicate HalfChurned(c: Config, pl: Plane, b: nat, n: nat) {
    && PlaneInv(c, pl) && pl.pool != []
    && b < |pl.blocks| && pl.blocks[b].written == n + 1 && pl.blocks[b].invalidCount == n && LiveIn(pl, b, n)
    && AllocReady(pl, Slot(Data, 0)) && (n + 1 < c.pagesPerBlock ==> pl.open[Slot(Data, 0)] == b)
  }

  lemma ChurnTake(c: Config, pl: Plane, b: nat, n: nat) returns (pl1: Plane)
    requires Churned(c, pl, b, n) && n < c.pagesPerBlock && c.streams >= 1
    requires n + 1 == c.pagesPerBlock ==> |pl.pool| >= 2
    ensures PlaneExec(c, pl, Take(Slot(Data, 0))).Reached? && pl1 == PlaneExec(c, pl, Take(Slot(Data, 0))).plane
    ensures HalfChurned(c, pl1, b, n) && (n + 1 < c.pagesPerBlock ==> pl1.pool == pl.pool)
  {
    hide PlaneInv;
    var slot := Slot(Data, 0);
    AllocateKeeps(c, pl, slot);
    AllocateChanges(c, pl, slot);
    pl1 := Allocate(c, pl, slot).plane;
    SlotIsReady(c, pl, slot);
    SlotIsReady(c, pl1, slot);
    hide Allocate;
  }

  lemma ChurnDrop(c: Config, pl1: Plane, b: nat, n: nat) returns (pl2: Plane)
    requires HalfChurned(c, pl1, b, n)
    ensures PlaneExec(c, pl1, Drop(b, n)).Reached? && pl2 == PlaneExec(c, pl1, Drop(b, n)).plane
    ensures Churned(c, pl2, b, n + 1) && pl2.pool == pl1.pool
  {
    hide PlaneOk;
    InvalidateKeeps(c, pl1, SlotsBelow(c.streams), pl1.blocks[b].stream, b, n);
    pl2 := Invalidate(pl1, pl1.blocks[b].stream, b, n).plane;
    hide PlaneInv;
  }

  lemma {:induction false} EmptyRun(c: Config, pl: Plane)
    ensures RunPlane(c, pl, []) == Reached(pl, [])
  {
  }

  lemma {:induction false} ChurnRuns(c: Config, pl0: Plane, b: nat, n: nat)
    requires Churned(c, pl0, b, 0) && n <= c.pagesPerBlock && c.streams >= 1 && |pl0.pool| >= 2
    ensures RunPlane(c, pl0, Churn(b, n)).Reached?
    ensures Churned(c, RunPlane(c, pl0, Churn(b, n)).plane, b, n)
    ensures n < c.pagesPerBlock ==> RunPlane(c, pl0, Churn(b, n)).plane.pool == pl0.pool
  {
    hide Churned, RunPlane, PlaneExec;
    if n == 0 {
      EmptyRun(c, pl0);
    } else {
      ChurnRuns(c, pl0, b, n - 1);
      var pl1, pl2 := ChurnOnce(c, RunPlane(c, pl0, Churn(b, n - 1)).plane, b, n - 1);
      RunTwo(c, pl0, Churn(b, n - 1), Take(Slot(Data, 0)), Drop(b, n - 1), pl1, pl2);
    }
  }

  /** In every device with two blocks to spare, overwriting the pages of one block reaches a plane
      with a fully invalidated block, on which the erase as written stops the simulator although
      the intended one succeeds. */
  lemma EraseStopsReachablePlane(c: Config) returns (steps: seq<PlaneStep>, b: nat)
    requires GoodConfig(c) && 3 * c.streams + 2 <= c.blocksPerPlane
    ensures RunPlane(c, InitialPlane(c), steps).Reached?
    ensures var pl := RunPlane(c, InitialPlane(c), steps).plane;
            && PlaneInv(c, pl) && FullyInvalid(c, pl, b) && Erase(c, pl, b).PlaneOkay?
            && EraseAsWritten(c, pl, b) == PlaneFailed(InconsistentCounters)
  {
    InitialPlaneInv(c);
    var pl0 := InitialPlane(c);
    assert |pl0.pool| >= 2;
    SlotIsReady(c, pl0, Slot(Data, 0));
    b := pl0.open[Slot(Data, 0)];
    steps := Churn(b, c.pagesPerBlock);
    hide InitialPlane;
    UnwrittenBlock(c, pl0, b);
    ChurnRuns(c, pl0, b, c.pagesPerBlock);
    hide RunPlane, PlaneOk, EraseAsWritten, Erase, Churn;
    var pl := RunPlane(c, pl0, steps).plane;
    EraseAsWrittenFailsWhenNeeded(c, pl, SlotsBelow(c.streams), b);
    EraseKeeps(c, pl, b);
  }

  lemma UnwrittenBlock(c: Config, pl: Plane, b: nat)
    requires PlaneInv(c, pl) && b < |pl.blocks| && pl.blocks[b].written == 0
    ensures pl.blocks[b].invalidCount == 0
  {
    assert BlockOk(c.pagesPerBlock, pl.blocks[b]);
    BlockBounds(c.pagesPerBlock, pl.blocks[b]);
  }
}
