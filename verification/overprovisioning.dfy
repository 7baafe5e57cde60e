/** Over-provisioning gives progress: when a plane has more usable pages than logical pages, a
    collection can always free a page, so that every request of the host can be served. */
module Overprovisioning {
  import opened FlashTypes
  import opened FreePool
  import opened PlaneModel
  import opened PlaneProofs
  import opened Marks
  import opened DeviceModel
  import opened FtlModel
  import opened FtlProofs
  import opened FtlSteps
  import opened GcCycle
  import opened InitialPlanes
  import opened FtlRuns
  import opened CollectionRoom
  import opened CollectionRuns
  import opened SafeVictims

  // ----- counting the blocks of a plane -----

  ghost function FullBlocks(c: Config, pl: Plane): (r: set<nat>)
    ensures forall b: nat :: b in r <==> b < |pl.blocks| && pl.blocks[b].written == c.pagesPerBlock
  {
    set b | 0 <= b < |pl.blocks| && pl.blocks[b].written == c.pagesPerBlock
  }

  ghost function Pooled(pool: seq<PoolEntry>): (r: set<nat>)
    ensures forall b: nat :: b in r <==> InPool(pool, b)
  {
    set i | 0 <= i < |pool| :: pool[i].block
  }

  lemma {:induction false} PooledSize(pool: seq<PoolEntry>)
    requires DistinctBlocks(pool)
    ensures |Pooled(pool)| == |pool|
  {
    if pool == [] {
      assert Pooled(pool) == {};
    } else {
      var n := |pool| - 1;
      PooledSize(pool[..n]);
      assert Pooled(pool) == Pooled(pool[..n]) + {pool[n].block};
      assert pool[n].block !in Pooled(pool[..n]);
    }
  }

  ghost function OpenBlocks(pl: Plane): (r: set<nat>)
    ensures forall b: nat :: b in r <==> IsOpen(pl, b)
  {
    set x | x in pl.open.Keys :: pl.open[x]
  }

  /** Every block is free, open or full, so the numbers of the three kinds add up. */
  lemma BlocksAreCounted(c: Config, pl: Plane)
    requires PlaneInv(c, pl)
    ensures |FullBlocks(c, pl)| + |pl.pool| + 3 * c.streams == c.blocksPerPlane
  {
    PooledSize(pl.pool);
    ImageSize(pl.open.Keys, pl.open);
    SlotsBelowSize(c.streams);
    BelowSize(c.blocksPerPlane);
    ThreeKinds(c, pl);
    hide PlaneInv, FullBlocks, Pooled;
    ThreeParts(FullBlocks(c, pl), Pooled(pl.pool), OpenBlocks(pl));
  }

  lemma ThreeKinds(c: Config, pl: Plane)
    requires PlaneInv(c, pl)
    ensures FullBlocks(c, pl) + Pooled(pl.pool) + OpenBlocks(pl) == Below(c.blocksPerPlane)
    ensures FullBlocks(c, pl) !! Pooled(pl.pool) && FullBlocks(c, pl) + Pooled(pl.pool) !! OpenBlocks(pl)
  {
    hide CountersOk, BlocksOk, FullBlocks, Pooled, OpenBlocks;
    forall b: nat ensures b in FullBlocks(c, pl) + Pooled(pl.pool) + OpenBlocks(pl) <==> b < c.blocksPerPlane {
      assert Placed(c, pl, b);
    }
  }

  lemma ThreeParts(x: set<nat>, y: set<nat>, z: set<nat>)
    requires x !! y && x + y !! z
    ensures |x + y + z| == |x| + |y| + |z|
  {
  }

  lemma WithoutOne(pages: nat, ids: set<nat>, n: nat)
    ensures pages * |ids| == pages * |ids - {n}| + if n in ids then pages else 0
  {
    assert n in ids ==> |ids| == |ids - {n}| + 1;
    assert n !in ids ==> ids - {n} == ids;
  }

  lemma {:induction false} LastFullBlock(pages: nat, blocks: seq<Block>, ids: set<nat>)
    requires blocks != [] && blocks[|blocks| - 1].invalidCount <= blocks[|blocks| - 1].written
    requires var b := blocks[|blocks| - 1]; |blocks| - 1 in ids ==> b.written == pages && b.invalidCount == 0
    requires Tally(pages, blocks[..|blocks| - 1]).valid >= pages * |ids - {|blocks| - 1}|
    ensures Tally(pages, blocks).valid >= pages * |ids|
  {
    hide Tally;
    var n := |blocks| - 1;
    TallySnoc(pages, blocks[..n], blocks[n]);
    assert blocks[..n] + [blocks[n]] == blocks;
    WithoutOne(pages, ids, n);
  }

  /** Blocks with every page valid contribute all their pages to the valid ones. */
  lemma {:induction false} TallyCoversFullBlocks(pages: nat, blocks: seq<Block>, ids: set<nat>)
    requires forall i :: 0 <= i < |blocks| ==> blocks[i].invalidCount <= blocks[i].written
    requires forall i :: i in ids ==> i < |blocks| && blocks[i].written == pages && blocks[i].invalidCount == 0
    ensures Tally(pages, blocks).valid >= pages * |ids|
  {
    if blocks == [] {
      assert ids == {};
    } else {
      hide Tally;
      var n := |blocks| - 1;
      TallyCoversFullBlocks(pages, blocks[..n], ids - {n});
      LastFullBlock(pages, blocks, ids);
    }
  }

  /** So with fewer valid pages than its full blocks have, a plane has a full block with an invalid
      page. */
  lemma SomeFullBlockHasInvalidPage(c: Config, pl: Plane) returns (b: nat)
    requires PlaneInv(c, pl) && pl.valid < c.pagesPerBlock * (c.blocksPerPlane - |pl.pool| - 3 * c.streams)
    ensures b < |pl.blocks| && pl.blocks[b].written == c.pagesPerBlock && pl.blocks[b].invalidCount > 0
  {
    BlocksAreCounted(c, pl);
    var full := FullBlocks(c, pl);
    if forall x :: x in full ==> pl.blocks[x].invalidCount == 0 {
      forall i | 0 <= i < |pl.blocks| ensures pl.blocks[i].invalidCount <= pl.blocks[i].written {
        BlockBounds(c.pagesPerBlock, pl.blocks[i]);
      }
      TallyCoversFullBlocks(c.pagesPerBlock, pl.blocks, full);
      assert false;
    }
    b :| b in full && pl.blocks[b].invalidCount != 0;
  }

  // ----- collecting until writes are admitted -----

  /** Pages a plane can use for data while as many blocks are free as stop user writes. */
  ghost function Usable(c: Config): int {
    c.pagesPerBlock * (c.blocksPerPlane - 3 * c.streams - (c.maxGc - 1))
  }

  /** A free block, no locked page, and fewer logical pages than usable ones. */
  ghost predicate HasSpare(c: Config, st: Ftl, p: PlaneId) {
    && FtlInv(c, st) && p in st.planes && st.planes[p].pool != []
    && MappedInto(st.table, p) !! st.locked
    && |MappedInto(st.table, p)| < Usable(c)
  }

  /** Collections leave the disk, the locks and the other planes alone and every page in its plane. */
  ghost predicate OnlyMoves(st: Ftl, p: PlaneId, st': Ftl) {
    && Contents(st') == Contents(st) && st'.locked == st.locked
    && st'.planes.Keys == st.planes.Keys && st'.table.Keys == st.table.Keys
    && (forall q :: q in st.planes && q != p ==> st'.planes[q] == st.planes[q])
    && forall k :: k in st.table ==>
         && (st'.table[k].addr.Some? <==> st.table[k].addr.Some?)
         && (st.table[k].addr.Some? ==> st'.table[k].addr.value.plane == st.table[k].addr.value.plane)
  }

  lemma SameMapped(st: Ftl, p: PlaneId, st': Ftl, q: PlaneId)
    requires OnlyMoves(st, p, st')
    ensures MappedInto(st'.table, q) == MappedInto(st.table, q)
  {
    hide Contents;
  }

  lemma CollectedOnlyMoves(c: Config, st: Ftl, p: PlaneId, b: nat, st': Ftl)
    requires FullBlock(c, st, p, b) && Collected(c, st, p, b, st')
    ensures OnlyMoves(st, p, st') && FtlInv(c, st')
    ensures st'.planes[p].free == st.planes[p].free + st.planes[p].blocks[b].invalidCount
    ensures |st'.planes[p].pool| >= |st.planes[p].pool|
  {
    hide FtlInv, Contents, InPool;
  }

  /** While a plane with spare pages stops user writes, some full block of it has an invalid page and
      its collection completes. */
  lemma NextCollection(c: Config, st: Ftl, p: PlaneId) returns (b: nat, st': Ftl)
    requires HasSpare(c, st, p) && Stopped(c, st.planes, p)
    ensures FullBlock(c, st, p, b) && st.planes[p].blocks[b].invalidCount > 0
    ensures Collect(c, st, p, b) == Done(st') && OnlyMoves(st, p, st') && HasSpare(c, st', p)
    ensures st'.planes[p].free > st.planes[p].free
  {
    var pl := st.planes[p];
    assert PlaneAt(c, st.planes, p) && pl.valid == |MappedInto(st.table, p)|;
    Scaled(c.pagesPerBlock, c.blocksPerPlane - |pl.pool| - 3 * c.streams,
           c.blocksPerPlane - 3 * c.streams - (c.maxGc - 1));
    hide FtlInv, PlaneInv, Collect, Collected;
    b := SomeFullBlockHasInvalidPage(c, pl);
    assert KeysInBlock(st, p, b, c.pagesPerBlock) <= MappedInto(st.table, p);
    hide OnlyMoves, KeysInBlock;
    st' := CollectWorks(c, st, p, b);
    CollectedOnlyMoves(c, st, p, b, st');
    SameMapped(st, p, st', p);
    assert p in st'.planes && st'.locked == st.locked by { MovesKeep(st, p, st'); }
  }

  lemma MovesKeep(st: Ftl, p: PlaneId, st': Ftl)
    requires OnlyMoves(st, p, st')
    ensures st'.planes.Keys == st.planes.Keys && st'.locked == st.locked
  {
  }

  lemma MovesCompose(st: Ftl, p: PlaneId, st1: Ftl, st2: Ftl)
    requires OnlyMoves(st, p, st1) && OnlyMoves(st1, p, st2)
    ensures OnlyMoves(st, p, st2)
  {
    hide Contents;
  }

  /** Over-provisioning gives progress: a plane with spare pages can be collected until it admits
      user writes again, with the disk as it was. With no program under way every victim passes the
      collector's safety test. */
  lemma CollectUntilAdmitted(c: Config, st: Ftl, p: PlaneId) returns (victims: seq<nat>, steps: seq<Step>, st': Ftl)
    requires HasSpare(c, st, p)
    ensures CollectEach(c, st, p, victims) == Done(st') && LeadsTo(c, st, steps, st') && CollectorOnly(steps)
    ensures HasSpare(c, st', p) && OnlyMoves(st, p, st') && !Stopped(c, st'.planes, p)
    ensures Quiet(st.planes) ==> Quiet(st'.planes) && SafeBarriers(c, st, steps)
  {
    victims, steps, st' := [], [], st;
    LeadsNowhere(c, st);
    while Stopped(c, st'.planes, p)
      invariant CollectEach(c, st, p, victims) == Done(st') && LeadsTo(c, st, steps, st') && CollectorOnly(steps)
      invariant HasSpare(c, st', p) && OnlyMoves(st, p, st')
      invariant Quiet(st.planes) ==> Quiet(st'.planes) && SafeBarriers(c, st, steps)
      decreases st'.planes[p].total - st'.planes[p].free
    {
      hide OnlyMoves, HasSpare, CollectEach, LeadsTo, SafeBarriers, CollectorOnly, Quiet, Stopped;
      victims, steps, st' := CollectOnce(c, st, p, victims, steps, st');
    }
  }

  /** One more collection at the end of such a sequence. */
  lemma CollectOnce(c: Config, st: Ftl, p: PlaneId, victims: seq<nat>, steps: seq<Step>, st1: Ftl)
    returns (victims': seq<nat>, steps': seq<Step>, st': Ftl)
    requires CollectEach(c, st, p, victims) == Done(st1) && LeadsTo(c, st, steps, st1) && CollectorOnly(steps)
    requires HasSpare(c, st1, p) && OnlyMoves(st, p, st1) && Stopped(c, st1.planes, p)
    requires Quiet(st.planes) ==> Quiet(st1.planes) && SafeBarriers(c, st, steps)
    ensures CollectEach(c, st, p, victims') == Done(st') && LeadsTo(c, st, steps', st') && CollectorOnly(steps')
    ensures HasSpare(c, st', p) && OnlyMoves(st, p, st')
    ensures Quiet(st.planes) ==> Quiet(st'.planes) && SafeBarriers(c, st, steps')
    ensures p in st1.planes && p in st'.planes && st'.planes[p].total == st1.planes[p].total
    ensures st1.planes[p].free < st'.planes[p].free <= st'.planes[p].total
  {
    hide OnlyMoves, FtlInv, Collect, LeadsTo, SafeBarriers, Requests, Quiet;
    var b;
    b, st' := NextCollection(c, st1, p);
    FreeBelowTotal(c, st', p);
    SameTotal(c, st1, st', p);
    MovesCompose(st, p, st1, st');
    victims' := victims + [b];
    assert victims'[..|victims|] == victims;
    var more := CollectionRun(c, st1, p, b, st');
    LeadsFurther(c, st, steps, st1, more, st');
    if Quiet(st.planes) { SafeFurther(c, st, steps, st1, more, st'); }
    steps' := steps + more;
  }

  /** One collection as a run; with no program under way its victim is safe. */
  lemma CollectionRun(c: Config, st: Ftl, p: PlaneId, b: nat, st': Ftl) returns (steps: seq<Step>)
    requires FtlInv(c, st) && FullBlock(c, st, p, b) && Collect(c, st, p, b) == Done(st')
    ensures LeadsTo(c, st, steps, st') && CollectorOnly(steps)
    ensures Quiet(st.planes) ==> Quiet(st'.planes) && SafeBarriers(c, st, steps)
  {
    hide FtlInv, Collect, LeadsTo, SafeBarriers, Quiet, SafeVictim;
    if Quiet(st.planes) {
      FullBlockIsSafe(c, st, p, b);
      steps := SafeCollection(c, st, p, b);
      CollectorRunStaysQuiet(c, st, steps, st');
    } else {
      var moves, st1 := CollectIsRun(c, st, p, b);
      steps := [BarrierStep(p, b)] + (moves + [EraseStep(p, b)]);
    }
  }

  lemma SameTotal(c: Config, st: Ftl, st': Ftl, p: PlaneId)
    requires FtlInv(c, st) && FtlInv(c, st') && p in st.planes && p in st'.planes
    ensures st'.planes[p].total == st.planes[p].total
  {
    assert PlaneAt(c, st.planes, p) && PlaneAt(c, st'.planes, p);
  }

  // ----- serving the host -----

  /** The logical pages among `keys` that are striped to plane `p`. */
  ghost function Homed(c: Config, keys: set<Key>, p: PlaneId): set<Key> {
    set k | k in keys && c.home(k.stream, k.lpa) == p
  }

  /** Every plane has more usable pages than logical pages striped to it. */
  ghost predicate Overprovisioned(c: Config, ids: set<PlaneId>, keys: set<Key>) {
    forall p :: p in ids ==> |Homed(c, keys, p)| < Usable(c)
  }

  /** Between requests: nothing is locked, every page is in its home plane, every plane has a free
      block. */
  ghost predicate Idle(c: Config, st: Ftl) {
    && FtlInv(c, st) && AtHome(c, st) && st.locked == {}
    && (forall p :: p in st.planes ==> st.planes[p].pool != [])
    && Overprovisioned(c, st.planes.Keys, st.table.Keys)
  }

  lemma IdleHasSpare(c: Config, st: Ftl, p: PlaneId)
    requires Idle(c, st) && p in st.planes
    ensures HasSpare(c, st, p)
  {
    hide FtlInv, Usable;
    assert MappedInto(st.table, p) <= Homed(c, st.table.Keys, p);
    SubsetSize(MappedInto(st.table, p), Homed(c, st.table.Keys, p));
  }

  lemma MovesKeepIdle(c: Config, st: Ftl, p: PlaneId, st': Ftl)
    requires Idle(c, st) && OnlyMoves(st, p, st') && HasSpare(c, st', p)
    ensures Idle(c, st')
  {
    hide FtlInv, Contents, Usable, Homed, MappedInto;
  }

  /** A read, or a write of a page that has been read before. */
  ghost predicate Wanted(d: Disk, keys: set<Key>, step: Step) {
    HostStep(step) && step.key in keys && (step.WriteStep? ==> step.key in d)
  }

  ghost function HomeOf(c: Config, step: Step): PlaneId
    requires HostStep(step)
  {
    c.home(step.key.stream, step.key.lpa)
  }

  /** A request changes its home plane only, and no lock. */
  lemma RequestIsLocal(c: Config, st: Ftl, step: Step, q: PlaneId)
    requires AtHome(c, st) && HostStep(step) && Exec(c, st, step).Done?
    requires q in st.planes && q != HomeOf(c, step)
    ensures var st' := Exec(c, st, step).st; q in st'.planes && st'.planes[q] == st.planes[q]
  {
    hide Allocate, Invalidate, MarkedIn, MergedImage;
  }

  lemma RequestLocksNothing(c: Config, st: Ftl, step: Step)
    requires HostStep(step) && Exec(c, st, step).Done?
    ensures Exec(c, st, step).st.locked == st.locked
  {
    hide AllocateAt, InvalidateAt, MarkAt, MergedImage;
  }

  /** A read takes at most one block from its home pool. */
  lemma ReadTakesAtMostOne(c: Config, st: Ftl, k: Key, sectors: set<nat>)
    requires AtHome(c, st) && UserRead(c, st, k, sectors).Done? && c.home(k.stream, k.lpa) in st.planes
    ensures var st', home := UserRead(c, st, k, sectors).st, c.home(k.stream, k.lpa);
            home in st'.planes && |st'.planes[home].pool| >= |st.planes[home].pool| - 1
  {
    hide AllocateAt, MarkAt;
    var home, slot := c.home(k.stream, k.lpa), Slot(Data, k.stream);
    var st' := UserRead(c, st, k, sectors).st;
    var a := st'.table[k].addr.value;
    var ps := st.planes;
    if st.table[k].addr == None {
      AllocateTakesAtMostOne(c, st.planes, slot, home);
      ps := AllocateAt(c, st.planes, slot, home).planes;
    }
    MarkKeepsPools(ps, a.plane, a.block, ReadStarted, home);
  }

  /** A request is served once its home plane admits user writes; the device is idle again. */
  lemma AdmittedRequest(c: Config, st: Ftl, step: Step) returns (st': Ftl)
    requires Idle(c, st) && c.maxGc >= 2 && Wanted(Contents(st), st.table.Keys, step)
    requires HomeOf(c, step) in st.planes && !Stopped(c, st.planes, HomeOf(c, step))
    ensures Exec(c, st, step) == Done(st') && Idle(c, st') && Contents(st') == Effect(Contents(st), step)
    ensures st'.planes.Keys == st.planes.Keys && st'.table.Keys == st.table.Keys
  {
    hide FtlInv, Contents, AtHome, Usable, WritePage, UserRead, Homed;
    var home := HomeOf(c, step);
    RequestCompletes(c, st, step);
    st' := Exec(c, st, step).st;
    StepRefines(c, st, step);
    StepStaysHome(c, st, step);
    RequestLocksNothing(c, st, step);
    RequestLeavesBlock(c, st, step);
    forall q | q in st'.planes ensures st'.planes[q].pool != [] {
      if q != home { RequestIsLocal(c, st, step, q); }
    }
    hide Exec;
  }

  lemma RequestCompletes(c: Config, st: Ftl, step: Step)
    requires FtlInv(c, st) && c.maxGc >= 2 && Wanted(Contents(st), st.table.Keys, step)
    requires HomeOf(c, step) in st.planes && !Stopped(c, st.planes, HomeOf(c, step))
    ensures Exec(c, st, step).Done?
  {
    var k, home := step.key, HomeOf(c, step);
    assert EntryOk(c, st, k) && PlaneAt(c, st.planes, home);
    hide FtlInv, PlaneInv, UserWrite, UserRead;
    if step.WriteStep? {
      AdmittedWriteSucceeds(c, st, k, step.data);
    } else {
      SlotIsReady(c, st.planes[home], Slot(Data, k.stream));
      UserReadFails(c, st, k, step.sectors);
    }
  }

  lemma RequestLeavesBlock(c: Config, st: Ftl, step: Step)
    requires AtHome(c, st) && c.maxGc >= 2 && HostStep(step) && Exec(c, st, step).Done?
    requires HomeOf(c, step) in st.planes && !Stopped(c, st.planes, HomeOf(c, step))
    ensures HomeOf(c, step) in Exec(c, st, step).st.planes && Exec(c, st, step).st.planes[HomeOf(c, step)].pool != []
  {
    hide AtHome, UserWrite, UserRead;
    match step
    case WriteStep(k, data) => AdmittedWriteLeavesRoom(c, st, k, data);
    case ReadStep(k, sectors) => ReadTakesAtMostOne(c, st, k, sectors);
  }

  /** Nothing but requests of the host, collections and the ends of programs. */
  ghost predicate Driven(steps: seq<Step>) {
    forall i :: 0 <= i < |steps| ==>
      HostStep(steps[i]) || CollectorStep(steps[i]) || (steps[i].MarkStep? && steps[i].mark == ProgramFinished)
  }

  /** The program of a page taken for a request finishes. */
  lemma FinishProgram(c: Config, st: Ftl, but: Option<PageAddr>) returns (steps: seq<Step>, st': Ftl)
    requires Idle(c, st) && QuietBut(st.planes, but)
    requires but.Some? ==> HasBlock(st.planes, but.value.plane, but.value.block)
    ensures LeadsTo(c, st, steps, st') && Requests(steps) == [] && SafeBarriers(c, st, steps) && Driven(steps)
    ensures Idle(c, st') && Quiet(st'.planes) && Contents(st') == Contents(st)
    ensures st'.planes.Keys == st.planes.Keys && st'.table.Keys == st.table.Keys
  {
    hide FtlInv, Contents, AtHome, Usable, Homed, QuietBut, LeadsTo;
    steps, st' := [], st;
    LeadsNowhere(c, st);
    if but.Some? {
      var a := but.value;
      var finish := MarkStep(a.plane, a.block, ProgramFinished);
      steps := [finish];
      st' := MarkKeepsFtl(c, st, a.plane, a.block, ProgramFinished);
      FinishQuiets(st.planes, a);
      StepStaysHome(c, st, finish);
      OneStep(c, st, finish, st');
      forall q | q in st'.planes ensures st'.planes[q].pool != [] {
        hide MarkedIn;
        MarkKeepsPools(st.planes, a.plane, a.block, ProgramFinished, q);
      }
    }
  }

  /** A request on a device with no program under way, the program of its page included. */
  lemma RequestAndFinish(c: Config, st: Ftl, step: Step) returns (steps: seq<Step>, st': Ftl)
    requires Idle(c, st) && Quiet(st.planes) && c.maxGc >= 2 && Wanted(Contents(st), st.table.Keys, step)
    requires HomeOf(c, step) in st.planes && !Stopped(c, st.planes, HomeOf(c, step))
    ensures LeadsTo(c, st, steps, st') && Requests(steps) == [step] && SafeBarriers(c, st, steps) && Driven(steps)
    ensures Idle(c, st') && Quiet(st'.planes) && Contents(st') == Effect(Contents(st), step)
    ensures st'.planes.Keys == st.planes.Keys && st'.table.Keys == st.table.Keys
  {
    hide Contents, Exec, LeadsTo, QuietBut, Effect, HasBlock, Idle;
    var st1 := AdmittedRequest(c, st, step);
    RequestQuietBut(c, st, step);
    var but := UnderWay(st, step, st1);
    if but.Some? { MappedInDevice(c, st1, step.key); }
    var more;
    more, st' := FinishProgram(c, st1, but);
    OneStep(c, st, step, st1);
    LeadsFurther(c, st, [step], st1, more, st');
    assert SafeAt(c, st, [step], 0);
    SafeFurther(c, st, [step], st1, more, st');
    steps := [step] + more;
    assert [step] + [] == [step];
  }

  lemma MappedInDevice(c: Config, st: Ftl, k: Key)
    requires Idle(c, st) && k in st.table && st.table[k].addr.Some?
    ensures HasBlock(st.planes, st.table[k].addr.value.plane, st.table[k].addr.value.block)
  {
    assert EntryOk(c, st, k);
  }

  /** One request: collections in its home plane until that admits user writes, then the request
      and the end of its program. */
  lemma ServeRequest(c: Config, st: Ftl, step: Step) returns (steps: seq<Step>, st': Ftl)
    requires Idle(c, st) && Quiet(st.planes) && c.maxGc >= 2 && Wanted(Contents(st), st.table.Keys, step)
    requires HomeOf(c, step) in st.planes
    ensures LeadsTo(c, st, steps, st') && Requests(steps) == [step] && SafeBarriers(c, st, steps) && Driven(steps)
    ensures Idle(c, st') && Quiet(st'.planes) && Contents(st') == Effect(Contents(st), step)
    ensures st'.planes.Keys == st.planes.Keys && st'.table.Keys == st.table.Keys
  {
    hide Idle, HasSpare, Contents, Exec, LeadsTo, Requests, CollectEach, Effect, Quiet, SafeBarriers;
    var home := HomeOf(c, step);
    IdleHasSpare(c, st, home);
    var victims, before, st1 := CollectUntilAdmitted(c, st, home);
    NoRequests(before);
    MovesKeepIdle(c, st, home, st1);
    var more;
    more, st' := RequestAndFinish(c, st1, step);
    LeadsFurther(c, st, before, st1, more, st');
    SafeFurther(c, st, before, st1, more, st');
    steps := before + more;
    assert [] + [step] == [step];
  }

  // ----- any number of requests -----

  /** Each request is wanted once those before it have been served. */
  ghost predicate AllWanted(d: Disk, keys: set<Key>, requests: seq<Step>) {
    forall i :: 0 <= i < |requests| ==> Wanted(Replay(d, requests[..i]), keys, requests[i])
  }

  lemma {:induction false} WantedBefore(d: Disk, keys: set<Key>, requests: seq<Step>)
    requires AllWanted(d, keys, requests) && requests != []
    ensures var n := |requests| - 1;
            AllWanted(d, keys, requests[..n]) && Wanted(Replay(d, requests[..n]), keys, requests[n])
  {
    hide Wanted;
    var n := |requests| - 1;
    forall i | 0 <= i < n ensures Wanted(Replay(d, requests[..n][..i]), keys, requests[..n][i]) {
      assert requests[..n][..i] == requests[..i];
    }
  }

  lemma HomeInDevice(c: Config, st: Ftl, k: Key)
    requires FtlInv(c, st) && k in st.table
    ensures c.home(k.stream, k.lpa) in st.planes
  {
    assert EntryOk(c, st, k);
  }

  /** Any sequence of requests can be served, in order, with collections of safe victims in
      between. */
  lemma {:induction false} ServeAll(c: Config, st: Ftl, requests: seq<Step>) returns (steps: seq<Step>, st': Ftl)
    requires Idle(c, st) && Quiet(st.planes) && c.maxGc >= 2 && AllWanted(Contents(st), st.table.Keys, requests)
    ensures LeadsTo(c, st, steps, st') && Requests(steps) == requests && SafeBarriers(c, st, steps) && Driven(steps)
    ensures Idle(c, st') && Quiet(st'.planes) && Contents(st') == Replay(Contents(st), requests)
    ensures st'.planes.Keys == st.planes.Keys && st'.table.Keys == st.table.Keys
  {
    hide Idle, Contents, LeadsTo, Requests, AllWanted, Effect, Quiet, SafeAt;
    if requests == [] {
      steps, st' := [], st;
      LeadsNowhere(c, st);
      NoRequests([]);
    } else {
      hide SafeBarriers;
      var n, last := |requests| - 1, requests[|requests| - 1];
      WantedBefore(Contents(st), st.table.Keys, requests);
      var before, st1 := ServeAll(c, st, requests[..n]);
      IdleIsInvariant(c, st1);
      HomeInDevice(c, st1, last.key);
      var more;
      more, st' := ServeRequest(c, st1, last);
      LeadsFurther(c, st, before, st1, more, st');
      SafeFurther(c, st, before, st1, more, st');
      steps := before + more;
      assert requests[..n] + [last] == requests;
    }
    hide FtlInv;
  }

  lemma IdleIsInvariant(c: Config, st: Ftl)
    requires Idle(c, st)
    ensures FtlInv(c, st)
  {
  }

  lemma InitiallyIdle(c: Config, ids: set<PlaneId>, keys: set<Key>)
    requires GoodDevice(c, ids, keys) && c.maxGc >= 2 && Overprovisioned(c, ids, keys)
    ensures Idle(c, Initial(c, ids, keys)) && Contents(Initial(c, ids, keys)) == map[]
  {
    InitialInv(c, ids, keys);
    hide FtlInv, InitialPlane, Homed, Contents;
    assert c.home(0, 0) in ids;
    SomeBlocksSpare(c);
    PoolOfInitialPlane(c);
    assert Initial(c, ids, keys).planes.Keys == ids && Initial(c, ids, keys).table.Keys == keys;
  }

  lemma InitiallyQuiet(c: Config, ids: set<PlaneId>, keys: set<Key>)
    requires GoodDevice(c, ids, keys)
    ensures Quiet(Initial(c, ids, keys).planes)
  {
    OpenStreamsInOrder(c, c.streams);
    assert OpenedInOrder(c, InitialPlane(c), c.streams);
    hide InitialPlane;
  }

  lemma SomeBlocksSpare(c: Config)
    ensures Usable(c) > 0 ==> c.blocksPerPlane - 3 * c.streams - (c.maxGc - 1) > 0
  {
    var spare := c.blocksPerPlane - 3 * c.streams - (c.maxGc - 1);
    if spare <= 0 { Scaled(c.pagesPerBlock, 0, spare); }
  }

  /** The device never starves: with two collections configured and fewer logical pages per plane
      than usable ones, every sequence of reads and of writes to pages read before is served from
      the constructed device by some run whose other steps are finished programs and collections of
      blocks that pass the collector's safety test, and which leaves the disk the requests amount
      to. No request is refused for lack of room. */
  lemma DeviceNeverStarves(c: Config, ids: set<PlaneId>, keys: set<Key>, requests: seq<Step>)
    returns (steps: seq<Step>, st: Ftl)
    requires GoodDevice(c, ids, keys) && c.maxGc >= 2 && Overprovisioned(c, ids, keys)
    requires AllWanted(map[], keys, requests)
    ensures Run(c, Initial(c, ids, keys), steps) == At(st, steps) && Requests(steps) == requests
    ensures Driven(steps) && SafeBarriers(c, Initial(c, ids, keys), steps)
    ensures Contents(st) == Replay(map[], requests)
  {
    hide Idle, Contents, Requests, AllWanted, Replay, Run, Overprovisioned, Quiet, SafeBarriers;
    InitiallyIdle(c, ids, keys);
    InitiallyQuiet(c, ids, keys);
    assert Initial(c, ids, keys).table.Keys == keys;
    hide Initial;
    steps, st := ServeAll(c, Initial(c, ids, keys), requests);
  }
}
