/** One logical page, read once on a fresh device and then written over and over, reaches states in
    which the code does not do what it is meant to. */
module RepeatedWrites {
  import opened FlashTypes
  import opened FreePool
  import opened PlaneModel
  import opened PlaneProofs
  import opened Marks
  import opened InitialPlanes
  import opened DeviceModel
  import opened FtlModel
  import opened FtlProofs
  import opened FtlSteps
  import opened FtlRuns
  import opened GcWl
  import opened FifoSelection

  /** One read, then `n` writes. */
  ghost function Rewrites(k: Key, data: Image, n: nat): seq<Step> {
    if n == 0 then [ReadStep(k, {})] else Rewrites(k, data, n - 1) + [WriteStep(k, data)]
  }

  // ----- the home plane -----

  /** The plane `pl0`, nothing written, after slot `slot` has handed out `n` pages, all but the last
      invalidated since: the first open block, and then the block that was first in the pool. */
  ghost predicate Rewritten(c: Config, pl0: Plane, slot: Slot, n: nat, pl: Plane) {
    && AllocReady(pl0, slot) && |pl.blocks| == |pl0.blocks| && pl.erasing == pl0.erasing
    && var first := pl.blocks[pl0.open[slot]];
       && first.written == (if n < c.pagesPerBlock then n else c.pagesPerBlock)
       && first.invalidCount == (if n <= c.pagesPerBlock then n - 1 else c.pagesPerBlock)
       && (pl0.pool != [] ==>
             pl.blocks[pl0.pool[0].block].written == if n < c.pagesPerBlock then 0 else n - c.pagesPerBlock)
       && if n < c.pagesPerBlock then
            pl.pool == pl0.pool && pl.open == pl0.open && pl.history == pl0.history
          else
            && pl0.pool != [] && pl.pool == pl0.pool[1..]
            && pl.open == pl0.open[slot := pl0.pool[0].block]
            && pl.history == QueueAfter(c, pl0, pl0.pool[0].block)
  }

  /** The last page handed out. */
  ghost function LastPage(c: Config, pl0: Plane, slot: Slot, n: nat, home: PlaneId): PageAddr
    requires slot in pl0.open && n >= 1 && (n > c.pagesPerBlock ==> pl0.pool != [])
  {
    if n <= c.pagesPerBlock then PageAddr(home, pl0.open[slot], n - 1)
    else PageAddr(home, pl0.pool[0].block, n - c.pagesPerBlock - 1)
  }

  /** A plane with nothing written, ready for the slot. */
  ghost predicate Unwritten(c: Config, pl0: Plane, slot: Slot) {
    && AllocReady(pl0, slot) && c.pagesPerBlock >= 1
    && pl0.blocks[pl0.open[slot]].written == 0 && pl0.blocks[pl0.open[slot]].invalidCount == 0
    && (pl0.pool != [] ==> pl0.pool[0].block != pl0.open[slot] && pl0.blocks[pl0.pool[0].block].written == 0)
  }

  lemma FirstPage(c: Config, pl0: Plane, slot: Slot, home: PlaneId, m: Mark)
    requires Unwritten(c, pl0, slot) && Allocate(c, pl0, slot).Allocated?
    ensures var r := Allocate(c, pl0, slot);
            && r.block < |r.plane.blocks| && Rewritten(c, pl0, slot, 1, MarkedIn(r.plane, r.block, m))
            && PageAddr(home, r.block, r.page) == LastPage(c, pl0, slot, 1, home)
  {
    AllocateChanges(c, pl0, slot);
    AllocateQueues(c, pl0, slot);
    hide Allocate;
  }

  /** The old page is invalidated and the next one handed out. */
  ghost predicate Replaced(c: Config, pl: Plane, slot: Slot, was: PageAddr, pl1: Plane, a: PageAddr, pl': Plane) {
    && was.block < |pl.blocks|
    && Invalidate(pl, slot.stream, was.block, was.page) == PlaneOkay(pl1)
    && AllocReady(pl1, slot)
    && Allocate(c, pl1, slot) == Allocated(pl', a.block, a.page)
    && a.plane == was.plane
  }

  lemma AnotherPage(c: Config, pl0: Plane, slot: Slot, n: nat, pl: Plane, pl1: Plane, a: PageAddr, pl': Plane,
                    home: PlaneId)
    requires Unwritten(c, pl0, slot) && 1 <= n && n + 1 < 2 * c.pagesPerBlock
    requires Rewritten(c, pl0, slot, n, pl)
    requires Replaced(c, pl, slot, LastPage(c, pl0, slot, n, home), pl1, a, pl')
    ensures Rewritten(c, pl0, slot, n + 1, pl')
    ensures a == LastPage(c, pl0, slot, n + 1, home)
  {
    AllocateChanges(c, pl1, slot);
    AllocateQueues(c, pl1, slot);
    hide Allocate;
  }

  /** When the first block is full, replacing its last page leaves it without a valid one. */
  lemma FirstBlockSpent(c: Config, pl0: Plane, slot: Slot, pl: Plane, pl1: Plane, a: PageAddr, pl': Plane,
                        home: PlaneId)
    requires Unwritten(c, pl0, slot) && Rewritten(c, pl0, slot, c.pagesPerBlock, pl)
    requires Replaced(c, pl, slot, LastPage(c, pl0, slot, c.pagesPerBlock, home), pl1, a, pl')
    ensures FullyInvalid(c, pl', pl0.open[slot])
  {
    AllocateChanges(c, pl1, slot);
    hide Allocate;
  }

  // ----- the device -----

  /** After `n` pages have been handed out for `k` in its home plane. */
  ghost predicate RewrittenFor(c: Config, pl0: Plane, k: Key, data: Image, n: nat, st: Ftl) {
    var home, slot := c.home(k.stream, k.lpa), Slot(Data, k.stream);
    && FtlInv(c, st) && k in st.table && st.table[k].bitmap <= data.Keys
    && home in st.planes && n >= 1 && Rewritten(c, pl0, slot, n, st.planes[home])
    && (n > c.pagesPerBlock ==> pl0.pool != [])
    && st.table[k].addr == Some(LastPage(c, pl0, slot, n, home))
  }

  /** A write of a page that is in its home plane replaces the page there. */
  lemma WriteReplaces(c: Config, st: Ftl, k: Key, data: Image, st': Ftl) returns (pl1: Plane)
    requires FtlInv(c, st) && k in st.table && st.table[k].addr.Some? && st.table[k].bitmap <= data.Keys
    requires var home := c.home(k.stream, k.lpa); st.table[k].addr.value.plane == home && home in st.planes
    requires WritePage(c, st, k, data) == Done(st')
    ensures var home := c.home(k.stream, k.lpa);
            && home in st'.planes && k in st'.table && st'.table[k].addr.Some?
            && Replaced(c, st.planes[home], Slot(Data, k.stream), st.table[k].addr.value, pl1,
                        st'.table[k].addr.value, st'.planes[home])
  {
    hide FtlInv, Invalidate, Allocate, MergedImage;
    var home, was := c.home(k.stream, k.lpa), st.table[k].addr.value;
    SetCovers(st.table[k].bitmap, data.Keys);
    pl1 := Invalidate(st.planes[home], k.stream, was.block, was.page).plane;
  }

  /** The write is admitted and finds a page when enough blocks are free or the open block has room. */
  lemma WriteCompletes(c: Config, st: Ftl, k: Key, data: Image) returns (st': Ftl, pl1: Plane)
    requires FtlInv(c, st) && k in st.table && st.table[k].addr.Some? && st.table[k].bitmap <= data.Keys
    requires var home := c.home(k.stream, k.lpa);
             && st.table[k].addr.value.plane == home && home in st.planes && |st.planes[home].pool| >= c.maxGc
             && CanAllocate(c, st.planes[home], Slot(Data, k.stream))
    ensures Exec(c, st, WriteStep(k, data)) == Done(st') && FtlInv(c, st')
    ensures k in st'.table && st'.table[k].bitmap <= data.Keys && st'.table[k].addr.Some?
    ensures var home := c.home(k.stream, k.lpa);
            && home in st'.planes
            && Replaced(c, st.planes[home], Slot(Data, k.stream), st.table[k].addr.value, pl1,
                        st'.table[k].addr.value, st'.planes[home])
  {
    hide CanAllocate;
    assert HomeReady(c, st, k);
    st' := WritePageRefines(c, st, k, data);
    hide FtlInv, WritePage, Replaced;
    pl1 := WriteReplaces(c, st, k, data, st');
  }

  lemma RewriteOnce(c: Config, pl0: Plane, k: Key, data: Image, n: nat, st: Ftl) returns (st': Ftl)
    requires RewrittenFor(c, pl0, k, data, n, st) && Unwritten(c, pl0, Slot(Data, k.stream))
    requires n + 1 < 2 * c.pagesPerBlock && |pl0.pool| >= 2 && |pl0.pool| > c.maxGc && PoolInRange(pl0)
    ensures Exec(c, st, WriteStep(k, data)) == Done(st') && RewrittenFor(c, pl0, k, data, n + 1, st')
  {
    hide FtlInv, Replaced, Exec;
    var home, slot := c.home(k.stream, k.lpa), Slot(Data, k.stream);
    RoomToRewrite(c, pl0, slot, n, st.planes[home]);
    var pl1;
    st', pl1 := WriteCompletes(c, st, k, data);
    AnotherPage(c, pl0, slot, n, st.planes[home], pl1, st'.table[k].addr.value, st'.planes[home], home);
    hide Rewritten, LastPage, Unwritten;
  }

  lemma RoomToRewrite(c: Config, pl0: Plane, slot: Slot, n: nat, pl: Plane)
    requires Unwritten(c, pl0, slot) && Rewritten(c, pl0, slot, n, pl) && |pl0.pool| >= 2
    requires PoolInRange(pl0)
    ensures CanAllocate(c, pl, slot) && pl.pool != [] && |pl.pool| >= |pl0.pool| - 1
  {
  }

  /** The first read of a page on a fresh device takes the first page of a block for it. */
  lemma ReadOnce(c: Config, ids: set<PlaneId>, keys: set<Key>, k: Key, data: Image) returns (st: Ftl)
    requires GoodDevice(c, ids, keys) && k in keys && 3 * c.streams < c.blocksPerPlane
    ensures Exec(c, Initial(c, ids, keys), ReadStep(k, {})) == Done(st)
    ensures RewrittenFor(c, InitialPlane(c), k, data, 1, st) && Unwritten(c, InitialPlane(c), Slot(Data, k.stream))
  {
    var st0, pl0, home, slot := Initial(c, ids, keys), InitialPlane(c), c.home(k.stream, k.lpa), Slot(Data, k.stream);
    InitialInv(c, ids, keys);
    FreshAndReady(c, slot);
    hide InitialPlane, FtlInv, Unwritten;
    assert pl0.pool != [] && CanAllocate(c, pl0, slot) && HomeReady(c, st0, k);
    st := UserReadRefines(c, st0, k, {});
    hide HomeReady, CanAllocate;
    CreateReplaces(c, st0, k, st);
    FirstPage(c, pl0, slot, home, ReadStarted);
    hide Rewritten, Allocate, LastPage;
  }

  lemma FreshAndReady(c: Config, slot: Slot)
    requires GoodConfig(c) && 3 * c.streams < c.blocksPerPlane && slot.stream < c.streams
    ensures Unwritten(c, InitialPlane(c), slot) && AllocReady(InitialPlane(c), slot)
    ensures PoolInRange(InitialPlane(c)) && InitialPlane(c).pool != []
    ensures |InitialPlane(c).pool| == c.blocksPerPlane - 3 * c.streams
  {
    InitialPlaneInv(c);
    var pl0 := InitialPlane(c);
    assert |pl0.pool| == c.blocksPerPlane - 3 * c.streams && PoolInRange(pl0);
    hide InitialPlane;
    SlotIsReady(c, pl0, slot);
    assert BlockOk(c.pagesPerBlock, pl0.blocks[pl0.open[slot]]);
    BlockBounds(c.pagesPerBlock, pl0.blocks[pl0.open[slot]]);
    hide PlaneInv;
  }

  /** A read that creates its page, in the home plane. */
  lemma CreateReplaces(c: Config, st: Ftl, k: Key, st': Ftl)
    requires k in st.table && st.table[k].addr == None && UserRead(c, st, k, {}) == Done(st')
    ensures var home, slot := c.home(k.stream, k.lpa), Slot(Data, k.stream);
            && home in st.planes && AllocReady(st.planes[home], slot) && Allocate(c, st.planes[home], slot).Allocated?
            && var r := Allocate(c, st.planes[home], slot);
               && k in st'.table && st'.table[k] == Entry(Some(PageAddr(home, r.block, r.page)), {})
               && home in st'.planes && r.block < |r.plane.blocks|
               && st'.planes[home] == MarkedIn(r.plane, r.block, ReadStarted)
  {
    hide Allocate, Marked;
  }

  /** One read and `n` writes of a page, in every device with two spare blocks per plane that leave
      enough free for the collections configured. */
  lemma {:induction false} RewritesReach(c: Config, ids: set<PlaneId>, keys: set<Key>, k: Key, data: Image, n: nat)
    returns (st: Ftl)
    requires GoodDevice(c, ids, keys) && k in keys && n + 1 < 2 * c.pagesPerBlock
    requires 3 * c.streams + 2 <= c.blocksPerPlane && 3 * c.streams + c.maxGc < c.blocksPerPlane
    ensures Run(c, Initial(c, ids, keys), Rewrites(k, data, n)) == At(st, Rewrites(k, data, n))
    ensures RewrittenFor(c, InitialPlane(c), k, data, n + 1, st) && Unwritten(c, InitialPlane(c), Slot(Data, k.stream))
  {
    hide Initial, InitialPlane, RewrittenFor, Unwritten, Exec, Run;
    var st0 := Initial(c, ids, keys);
    FreshAndReady(c, Slot(Data, k.stream));
    if n == 0 {
      st := ReadOnce(c, ids, keys, k, data);
      RunNothing(c, st0);
      RunNext(c, st0, [], ReadStep(k, {}), st0, st);
      assert [] + [ReadStep(k, {})] == [ReadStep(k, {})];
    } else {
      var st1 := RewritesReach(c, ids, keys, k, data, n - 1);
      st := RewriteOnce(c, InitialPlane(c), k, data, n, st1);
      RunNext(c, st0, Rewrites(k, data, n - 1), WriteStep(k, data), st1, st);
    }
  }

  // ----- the erase as written -----

  /** In every such device, one read and as many writes of one page as a block has pages leave a
      fully invalidated block. The erase as written stops the simulator on it although the intended
      one succeeds. */
  lemma EraseStopsReachableDevice(c: Config, ids: set<PlaneId>, keys: set<Key>, k: Key, data: Image)
    returns (st: Ftl, b: nat)
    requires GoodDevice(c, ids, keys) && k in keys
    requires 3 * c.streams + 2 <= c.blocksPerPlane && 3 * c.streams + c.maxGc < c.blocksPerPlane
    ensures var steps := Rewrites(k, data, c.pagesPerBlock); Run(c, Initial(c, ids, keys), steps) == At(st, steps)
    ensures var home := c.home(k.stream, k.lpa);
            && home in st.planes && FullyInvalid(c, st.planes[home], b) && EraseBlock(c, st, home, b).Done?
            && EraseAsWritten(c, st.planes[home], b) == PlaneFailed(InconsistentCounters)
  {
    hide Initial, InitialPlane, Exec, Run, FtlInv, Replaced, Rewritten, Unwritten;
    var pl0, home, slot, n := InitialPlane(c), c.home(k.stream, k.lpa), Slot(Data, k.stream), c.pagesPerBlock;
    var st1 := RewritesReach(c, ids, keys, k, data, n - 1);
    FreshAndReady(c, slot);
    RoomToRewrite(c, pl0, slot, n, st1.planes[home]);
    var pl1;
    st, pl1 := WriteCompletes(c, st1, k, data);
    RunNext(c, Initial(c, ids, keys), Rewrites(k, data, n - 1), WriteStep(k, data), st1, st);
    b := pl0.open[slot];
    FirstBlockSpent(c, pl0, slot, st1.planes[home], pl1, st.table[k].addr.value, st.planes[home], home);
    hide EraseBlock, FullyInvalid, EraseAsWritten, Rewrites, LastPage;
    var st2 := EraseBlockRefines(c, st, home, b);
    SpentStops(c, st, home, b);
  }

  lemma SpentStops(c: Config, st: Ftl, p: PlaneId, b: nat)
    requires FtlInv(c, st) && p in st.planes && FullyInvalid(c, st.planes[p], b)
    ensures EraseAsWritten(c, st.planes[p], b) == PlaneFailed(InconsistentCounters)
  {
    assert PlaneAt(c, st.planes, p);
    hide FtlInv, EraseAsWritten;
    EraseAsWrittenFailsWhenNeeded(c, st.planes[p], SlotsBelow(c.streams), b);
  }

  // ----- the first-in-first-out choice -----

  /** The plane that the next write hands to the collection check: its old page invalidated, the
      last page of the open block handed out, the next block opened. */
  ghost predicate SeenByCheck(c: Config, st: Ftl, k: Key, data: Image, seen: Plane) {
    var home, slot := c.home(k.stream, k.lpa), Slot(Data, k.stream);
    && home in st.planes && k in st.table && st.table[k].addr.Some?
    && Exec(c, st, WriteStep(k, data)).Done?
    && var was, st' := st.table[k].addr.value, Exec(c, st, WriteStep(k, data)).st;
       && was.block < |st.planes[home].blocks|
       && Invalidate(st.planes[home], k.stream, was.block, was.page).PlaneOkay?
       && var pl1 := Invalidate(st.planes[home], k.stream, was.block, was.page).plane;
          && AllocReady(pl1, slot) && pl1.pool != [] && seen == TakeFree(WriteOpen(pl1, slot), slot)
          && home in st'.planes && st'.planes[home] == GcCheckEffect(c, seen)
  }

  /** The first blocks of the constructed plane: the collector's block of stream 0 is the second. */
  ghost predicate SecondIsCollector(pl0: Plane) {
    && |pl0.history| >= 2 && Slot(Gc, 0) in pl0.open && pl0.history[1] == pl0.open[Slot(Gc, 0)] < |pl0.blocks|
    && pl0.erasing == {}
  }

  lemma FirstBlocks(c: Config)
    requires GoodConfig(c) && 3 * c.streams <= c.blocksPerPlane
    ensures SecondIsCollector(InitialPlane(c))
  {
    OpenStreamsInOrder(c, c.streams);
    hide OpenStreams, FreshPlane;
    assert SlotNumber(Slot(Gc, 0)) == 1;
  }

  /** The second time the slot fills its block, the front of the queue is still the collector's
      first block. */
  lemma SecondCheck(c: Config, pl0: Plane, slot: Slot, pl: Plane, was: PageAddr, pl1: Plane, a: PageAddr, pl': Plane)
    returns (seen: Plane)
    requires Unwritten(c, pl0, slot) && Rewritten(c, pl0, slot, 2 * c.pagesPerBlock - 1, pl) && slot.kind == Data
    requires Replaced(c, pl, slot, was, pl1, a, pl') && |pl0.pool| >= 2 && SecondIsCollector(pl0)
    requires c.policy == Fifo && c.maxGc >= 1 && |pl0.pool| <= c.gcThreshold
    ensures AllocReady(pl1, slot) && pl1.pool != [] && seen == TakeFree(WriteOpen(pl1, slot), slot)
    ensures seen.history != [] && Slot(Gc, 0) in seen.open && seen.history[0] == seen.open[Slot(Gc, 0)] < |seen.blocks|
    ensures Due(c, seen) && pl' == GcCheckEffect(c, seen)
  {
    seen := TakeFree(WriteOpen(pl1, slot), slot);
  }

  lemma OpenBlockChosen(c: Config, seen: Plane, size: nat, least: nat, drawn: seq<nat>, r: Option<nat>,
                        sample: set<nat>, left: seq<nat>)
    requires c.policy == Fifo && Due(c, seen) && seen.history != [] && Slot(Gc, 0) in seen.open
    requires seen.history[0] == seen.open[Slot(Gc, 0)] < |seen.blocks|
    requires Chosen(c, seen, size, least, drawn, r, sample, left)
    ensures r == Some(seen.open[Slot(Gc, 0)]) && IsOpen(seen, r.value) && !Collectable(seen, c.pagesPerBlock, r.value)
  {
  }

  lemma Sees(c: Config, st: Ftl, k: Key, data: Image, st': Ftl, pl1: Plane, seen: Plane)
    requires var home, slot := c.home(k.stream, k.lpa), Slot(Data, k.stream);
             && home in st.planes && k in st.table && st.table[k].addr.Some? && home in st'.planes
             && k in st'.table && st'.table[k].addr.Some? && Exec(c, st, WriteStep(k, data)) == Done(st')
             && Replaced(c, st.planes[home], slot, st.table[k].addr.value, pl1, st'.table[k].addr.value,
                         st'.planes[home])
             && AllocReady(pl1, slot) && pl1.pool != [] && seen == TakeFree(WriteOpen(pl1, slot), slot)
             && st'.planes[home] == GcCheckEffect(c, seen)
    ensures SeenByCheck(c, st, k, data, seen)
  {
    hide Exec, TakeFree, WriteOpen, GcCheckEffect, Allocate, Invalidate;
  }

  /** In every such device with the first-in-first-out policy and a collection due throughout, writing
      one page over and over reaches a write whose collection check chooses the collector's own open
      block of stream 0. */
  lemma FifoChoosesOpenBlock(c: Config, ids: set<PlaneId>, keys: set<Key>, k: Key, data: Image)
    returns (st: Ftl, seen: Plane)
    requires GoodDevice(c, ids, keys) && k in keys
    requires 3 * c.streams + 2 <= c.blocksPerPlane && 3 * c.streams + c.maxGc < c.blocksPerPlane
    requires c.policy == Fifo && c.maxGc >= 1 && c.blocksPerPlane <= 3 * c.streams + c.gcThreshold
    ensures var steps := Rewrites(k, data, 2 * c.pagesPerBlock - 2);
            Run(c, Initial(c, ids, keys), steps) == At(st, steps)
    ensures SeenByCheck(c, st, k, data, seen) && Due(c, seen)
    ensures seen.history != [] && Slot(Gc, 0) in seen.open && seen.history[0] == seen.open[Slot(Gc, 0)] < |seen.blocks|
    ensures forall size, least, drawn, r, sample, left :: Chosen(c, seen, size, least, drawn, r, sample, left) ==>
              r == Some(seen.open[Slot(Gc, 0)]) && IsOpen(seen, r.value) && !Collectable(seen, c.pagesPerBlock, r.value)
  {
    hide Initial, InitialPlane, Exec, Run, FtlInv, Replaced, Unwritten;
    var pl0, home, slot, n := InitialPlane(c), c.home(k.stream, k.lpa), Slot(Data, k.stream), 2 * c.pagesPerBlock - 1;
    st := RewritesReach(c, ids, keys, k, data, n - 1);
    FreshAndReady(c, slot);
    RoomToRewrite(c, pl0, slot, n, st.planes[home]);
    var st', pl1 := WriteCompletes(c, st, k, data);
    FirstBlocks(c);
    hide Rewrites;
    seen := SecondCheck(c, pl0, slot, st.planes[home], st.table[k].addr.value, pl1, st'.table[k].addr.value,
                        st'.planes[home]);
    Sees(c, st, k, data, st', pl1, seen);
    hide SeenByCheck, Rewritten, Chosen, LastPage, Collectable, Due, TakeFree, WriteOpen, SecondIsCollector,
         GcCheckEffect;
    forall size, least, drawn, r, sample, left | Chosen(c, seen, size, least, drawn, r, sample, left)
      ensures r == Some(seen.open[Slot(Gc, 0)]) && IsOpen(seen, r.value) && !Collectable(seen, c.pagesPerBlock, r.value)
    {
      OpenBlockChosen(c, seen, size, least, drawn, r, sample, left);
    }
  }
}
