/** Whether a collection finds room after user writes, and two reachable states in which the code
    does not do what it is meant to. */
module CollectionRoom {
  import opened FlashTypes
  import opened PlaneModel
  import opened PlaneProofs
  import opened Marks
  import opened DeviceModel
  import opened FtlModel
  import opened FtlSteps
  import opened GcCycle
  import opened FtlRuns
  import opened InitialPlanes

  // ----- the pool across one step -----

  lemma MarkKeepsPools(ps: Planes, p: PlaneId, b: nat, m: Mark, q: PlaneId)
    requires MarkAt(ps, p, b, m).DeviceDone? && q in ps
    ensures q in MarkAt(ps, p, b, m).planes && MarkAt(ps, p, b, m).planes[q].pool == ps[q].pool
  {
  }

  lemma InvalidateKeepsPools(ps: Planes, stream: nat, a: PageAddr, q: PlaneId)
    requires InvalidateAt(ps, stream, a).DeviceDone? && q in ps
    ensures q in InvalidateAt(ps, stream, a).planes && InvalidateAt(ps, stream, a).planes[q].pool == ps[q].pool
  {
  }

  /** An allocation takes a block from its plane's pool exactly when it fills the open block. */
  lemma AllocateTakesAtMostOne(c: Config, ps: Planes, slot: Slot, p: PlaneId)
    requires AllocateAt(c, ps, slot, p).GotPage?
    ensures var r := AllocateAt(c, ps, slot, p);
            && p in ps && p in r.planes && r.addr.plane == p
            && |r.planes[p].pool| == |ps[p].pool| - if r.addr.page + 1 == c.pagesPerBlock then 1 else 0
  {
    hide Allocate;
    AllocateChanges(c, ps[p], slot);
  }

  /** A user write takes a block from its home pool exactly when its page is the last of a block. */
  lemma WriteTakesAtMostOne(c: Config, st: Ftl, k: Key, data: Image)
    requires WritePage(c, st, k, data).Done?
    ensures var st', home := WritePage(c, st, k, data).st, c.home(k.stream, k.lpa);
            && home in st.planes && home in st'.planes && k in st'.table && st'.table[k].addr.Some?
            && |st'.planes[home].pool|
               == |st.planes[home].pool| - if st'.table[k].addr.value.page + 1 == c.pagesPerBlock then 1 else 0
  {
    hide MarkAt, InvalidateAt, AllocateAt, MergedImage;
    var home, was := c.home(k.stream, k.lpa), st.table[k].addr.value;
    var ps := if st.table[k].bitmap * data.Keys == st.table[k].bitmap then st.planes
              else MarkAt(st.planes, was.plane, was.block, ReadStarted).planes;
    var ps1 := InvalidateAt(ps, k.stream, was).planes;
    AllocateTakesAtMostOne(c, ps1, Slot(Data, k.stream), home);
    InvalidateIsLocal(ps, k.stream, was);
    InvalidateKeepsPools(ps, k.stream, was, home);
    if ps != st.planes {
      MarkIsLocal(st.planes, was.plane, was.block, ReadStarted);
      MarkKeepsPools(st.planes, was.plane, was.block, ReadStarted, home);
    }
  }

  lemma InvalidateIsLocal(ps: Planes, stream: nat, a: PageAddr)
    requires InvalidateAt(ps, stream, a).DeviceDone?
    ensures InvalidateAt(ps, stream, a).planes.Keys == ps.Keys
  {
  }

  lemma MarkIsLocal(ps: Planes, p: PlaneId, b: nat, m: Mark)
    requires MarkAt(ps, p, b, m).DeviceDone?
    ensures MarkAt(ps, p, b, m).planes.Keys == ps.Keys
  {
  }

  // ----- room for a collection -----

  /** An admitted user write leaves all but one of the free blocks reserved for collections. */
  lemma AdmittedWriteLeavesRoom(c: Config, st: Ftl, k: Key, data: Image)
    requires UserWrite(c, st, k, data).Done?
    ensures var st', home := UserWrite(c, st, k, data).st, c.home(k.stream, k.lpa);
            home in st'.planes && |st'.planes[home].pool| >= c.maxGc - 1
  {
    hide WritePage;
    WriteTakesAtMostOne(c, st, k, data);
  }

  /** So with two concurrent collections configured, after an admitted user write every full
      block of its plane none of whose logical pages is locked can be collected. */
  lemma CollectionFitsAfterWrite(c: Config, st: Ftl, k: Key, data: Image, b: nat)
    requires FtlInv(c, st) && c.maxGc >= 2 && UserWrite(c, st, k, data).Done?
    requires var st', home := UserWrite(c, st, k, data).st, c.home(k.stream, k.lpa);
             FullBlock(c, st', home, b) && KeysInBlock(st', home, b, c.pagesPerBlock) !! st'.locked
    ensures Collect(c, UserWrite(c, st, k, data).st, c.home(k.stream, k.lpa), b).Done?
  {
    hide UserWrite, FtlInv, KeysInBlock, Collect;
    var st', home := UserWrite(c, st, k, data).st, c.home(k.stream, k.lpa);
    AdmittedWriteLeavesRoom(c, st, k, data);
    StepRefines(c, st, WriteStep(k, data));
    CollectFails(c, st', home, b);
  }

  // ----- one collection is not enough -----

  /** A live page whose block holds one page keeps a collection from completing when the pool is
      empty: the collector's open block has no second page. */
  lemma NoRoomNoCollection(c: Config, st: Ftl, k: Key)
    requires FtlInv(c, st) && c.pagesPerBlock == 1 && k in st.table && st.table[k].addr.Some? && st.locked == {}
    requires var p := st.table[k].addr.value.plane; p in st.planes && st.planes[p].pool == []
    ensures var a := st.table[k].addr.value;
            && FullBlock(c, st, a.plane, a.block) && KeysInBlock(st, a.plane, a.block, c.pagesPerBlock) !! st.locked
            && !Collect(c, st, a.plane, a.block).Done?
  {
    var a := st.table[k].addr.value;
    assert EntryOk(c, st, k);
    assert PlaneAt(c, st.planes, a.plane);
    var blk := st.planes[a.plane].blocks[a.block];
    assert BlockOk(c.pagesPerBlock, blk);
    BlockBounds(c.pagesPerBlock, blk);
    assert blk.invalid == {};
    hide FtlInv, PlaneInv, KeysInBlock, Collect;
    CollectFails(c, st, a.plane, a.block);
  }

  /** With a single collection configured an admitted user write can take the last free block: in
      every device with one page per block and two spare blocks per plane, one read and one write
      reach a state in which a full, unlocked block cannot be collected. */
  lemma OneCollectionIsNotEnough(c: Config, ids: set<PlaneId>, keys: set<Key>, k: Key, data: Image)
    returns (st: Ftl, b: nat)
    requires GoodDevice(c, ids, keys) && k in keys
    requires c.maxGc == 1 && c.pagesPerBlock == 1 && c.blocksPerPlane == 3 * c.streams + 2
    ensures Run(c, Initial(c, ids, keys), [ReadStep(k, {}), WriteStep(k, data)])
            == At(st, [ReadStep(k, {}), WriteStep(k, data)])
    ensures var home := c.home(k.stream, k.lpa);
            && FullBlock(c, st, home, b) && KeysInBlock(st, home, b, c.pagesPerBlock) !! st.locked
            && !Collect(c, st, home, b).Done?
  {
    var home := c.home(k.stream, k.lpa);
    var st1 := FirstRead(c, ids, keys, k, {});
    st := AdmittedSecond(c, st1, k, data);
    b := st.table[k].addr.value.block;
    hide FtlInv, Initial, Exec, KeysInBlock, Collect;
    NoRoomNoCollection(c, st, k);
    TwoSteps(c, Initial(c, ids, keys), ReadStep(k, {}), WriteStep(k, data), st1, st);
  }

  lemma {:induction false} TwoSteps(c: Config, st: Ftl, x: Step, y: Step, st1: Ftl, st2: Ftl)
    requires Allowed(c, st, x) && Exec(c, st, x) == Done(st1) && Allowed(c, st1, y) && Exec(c, st1, y) == Done(st2)
    ensures Run(c, st, [x, y]) == At(st2, [x, y])
  {
    hide Exec, Allowed, Run;
    RunNothing(c, st);
    RunNext(c, st, [], x, st, st1);
    assert [] + [x] == [x];
    RunNext(c, st, [x], y, st1, st2);
    assert [x] + [y] == [x, y];
  }

  /** The first read of a logical page on a fresh device gives it the first page of a block. */
  lemma FirstRead(c: Config, ids: set<PlaneId>, keys: set<Key>, k: Key, sectors: set<nat>) returns (st1: Ftl)
    requires GoodDevice(c, ids, keys) && k in keys && 3 * c.streams < c.blocksPerPlane
    ensures Exec(c, Initial(c, ids, keys), ReadStep(k, sectors)) == Done(st1)
    ensures FtlInv(c, st1) && st1.locked == {} && k in st1.table && st1.table[k].addr.Some?
    ensures var a, home := st1.table[k].addr.value, c.home(k.stream, k.lpa);
            && a.plane == home && a.page == 0 && home in st1.planes
            && |st1.planes[home].pool| == c.blocksPerPlane - 3 * c.streams - if c.pagesPerBlock == 1 then 1 else 0
  {
    var st0, home, slot := Initial(c, ids, keys), c.home(k.stream, k.lpa), Slot(Data, k.stream);
    InitialInv(c, ids, keys);
    InitialPlaneInv(c);
    hide InitialPlane, FtlInv, PlaneInv;
    PoolOfInitialPlane(c);
    SlotIsReady(c, InitialPlane(c), slot);
    assert HomeReady(c, st0, k);
    st1 := UserReadRefines(c, st0, k, sectors);
    CreateThenMark(c, st0, k, sectors, st1);
  }

  lemma PoolOfInitialPlane(c: Config)
    requires GoodConfig(c) && 3 * c.streams <= c.blocksPerPlane
    ensures |InitialPlane(c).pool| == c.blocksPerPlane - 3 * c.streams
  {
  }

  /** A read that creates its page: the page is the next one of the stream's open block. */
  lemma CreateThenMark(c: Config, st: Ftl, k: Key, sectors: set<nat>, st1: Ftl)
    requires k in st.table && st.table[k].addr == None && UserRead(c, st, k, sectors) == Done(st1)
    requires var home, slot := c.home(k.stream, k.lpa), Slot(Data, k.stream);
             home in st.planes && AllocReady(st.planes[home], slot)
             && st.planes[home].blocks[st.planes[home].open[slot]].written == 0
    ensures k in st1.table && st1.table[k].addr.Some?
    ensures var a, home := st1.table[k].addr.value, c.home(k.stream, k.lpa);
            && a.plane == home && a.page == 0 && home in st1.planes
            && |st1.planes[home].pool| == |st.planes[home].pool| - if c.pagesPerBlock == 1 then 1 else 0
  {
    hide MarkAt, Allocate;
    var home, slot := c.home(k.stream, k.lpa), Slot(Data, k.stream);
    AllocateChanges(c, st.planes[home], slot);
    AllocateTakesAtMostOne(c, st.planes, slot, home);
    var r := AllocateAt(c, st.planes, slot, home);
    MarkKeepsPools(r.planes, r.addr.plane, r.addr.block, ReadStarted, home);
  }

  /** The write that takes the last free block. */
  lemma AdmittedSecond(c: Config, st1: Ftl, k: Key, data: Image) returns (st: Ftl)
    requires FtlInv(c, st1) && k in st1.table && st1.table[k].addr.Some? && c.maxGc == 1 && c.pagesPerBlock == 1
    requires var home := c.home(k.stream, k.lpa); home in st1.planes && |st1.planes[home].pool| == 1
    ensures Exec(c, st1, WriteStep(k, data)) == Done(st)
    ensures FtlInv(c, st) && st.locked == st1.locked && k in st.table && st.table[k].addr.Some?
    ensures var home := c.home(k.stream, k.lpa);
            st.table[k].addr.value.plane == home && home in st.planes && st.planes[home].pool == []
  {
    AdmittedWriteSucceeds(c, st1, k, data);
    hide WritePage, HomeReady;
    st := WritePageRefines(c, st1, k, data);
    WriteTakesAtMostOne(c, st1, k, data);
    PageInBlock(c, st, k);
    hide FtlInv;
  }

  lemma PageInBlock(c: Config, st: Ftl, k: Key)
    requires FtlInv(c, st) && k in st.table && st.table[k].addr.Some?
    ensures st.table[k].addr.value.page < c.pagesPerBlock
  {
    var a := st.table[k].addr.value;
    assert EntryOk(c, st, k);
    assert PlaneAt(c, st.planes, a.plane);
    assert BlockOk(c.pagesPerBlock, st.planes[a.plane].blocks[a.block]);
  }

  // ----- the stub lookup at a reachable state -----

  /** On a fresh device the first read of any logical page but number 0 gives it page 0 of a
      block; the barrier over that block then works with a true reverse lookup and stops the
      simulator with the stub. */
  lemma StubStopsReachableBarrier(c: Config, ids: set<PlaneId>, keys: set<Key>, k: Key, sectors: set<nat>)
    returns (st: Ftl, a: PageAddr)
    requires GoodDevice(c, ids, keys) && k in keys && k.lpa > 0 && 3 * c.streams < c.blocksPerPlane
    ensures Run(c, Initial(c, ids, keys), [ReadStep(k, sectors)]) == At(st, [ReadStep(k, sectors)])
    ensures k in st.table && st.table[k].addr == Some(a) && HasBlock(st.planes, a.plane, a.block)
    ensures SetBarrier(st, a.plane, a.block).Done?
    ensures var n := st.planes[a.plane].blocks[a.block].written;
            && StubBarrierUpTo(st, a.plane, a.block, n).Failed?
            && StubBarrierUpTo(st, a.plane, a.block, n).error in {EntryNotValid, MappingMismatch}
  {
    hide FtlInv, Initial, Exec, KeysInBlock, KeyAt, BarrierUpTo, StubBarrierUpTo;
    st := FirstRead(c, ids, keys, k, sectors);
    a := st.table[k].addr.value;
    StubIsWrong(c, st, k, a);
    var n := st.planes[a.plane].blocks[a.block].written;
    StubBarrierWorksExactly(c, st, a.plane, a.block, n);
    BarrierIsExact(c, st, a.plane, a.block, n);
    assert [ReadStep(k, sectors)][..0] == [];
  }

  lemma StubIsWrong(c: Config, st: Ftl, k: Key, a: PageAddr)
    requires FtlInv(c, st) && k in st.table && st.table[k].addr == Some(a) && k.lpa != a.page
    ensures HasBlock(st.planes, a.plane, a.block)
    ensures !StubIsRight(st, a.plane, a.block, st.planes[a.plane].blocks[a.block].written)
  {
    hide DeviceOk, CountsOk, KeyAt;
    assert EntryOk(c, st, k);
    OnlyKeyOnPage(c, st, a.plane, a.block, a.page, k);
  }
}
