/** The ongoing-transaction counters and collection flags of all blocks, over steps and runs of the
    translation layer. */
module OngoingMarks {
  import opened FlashTypes
  import opened PlaneModel
  import opened PlaneProofs
  import opened Marks
  import opened DeviceModel
  import opened FtlModel
  import opened FtlProofs
  import opened FtlSteps
  import opened GcCycle
  import opened FtlRuns

  // ----- one block, across one device operation -----

  lemma AllocateMarks(c: Config, pl: Plane, slot: Slot, x: nat)
    requires AllocReady(pl, slot) && Allocate(c, pl, slot).Allocated? && x < |pl.blocks|
    ensures var r := Allocate(c, pl, slot);
            && |r.plane.blocks| == |pl.blocks|
            && r.plane.blocks[x].gc == pl.blocks[x].gc
            && r.plane.blocks[x].ongoingReads == pl.blocks[x].ongoingReads
            && r.plane.blocks[x].ongoingPrograms
               == pl.blocks[x].ongoingPrograms + if x == r.block && slot.kind == Data then 1 else 0
  {
  }

  /** What is under way in a block: reads, programs, a collection. */
  datatype Ongoing = Ongoing(readers: int, programs: int, gc: bool)

  ghost predicate MarksAre(ps: Planes, p: PlaneId, b: nat, o: Ongoing) {
    && HasBlock(ps, p, b)
    && ps[p].blocks[b].ongoingReads == o.readers && ps[p].blocks[b].ongoingPrograms == o.programs
    && ps[p].blocks[b].gc == o.gc
  }

  ghost predicate IsIn(a: PageAddr, p: PlaneId, b: nat) {
    a.plane == p && a.block == b
  }

  lemma AllocateAtMarks(c: Config, ps: Planes, slot: Slot, q: PlaneId, p: PlaneId, b: nat, o: Ongoing)
    requires AllocateAt(c, ps, slot, q).GotPage? && MarksAre(ps, p, b, o)
    ensures var r := AllocateAt(c, ps, slot, q); var started := slot.kind == Data && IsIn(r.addr, p, b);
            MarksAre(r.planes, p, b, o.(programs := o.programs + if started then 1 else 0))
  {
    hide Allocate;
    if p == q { AllocateMarks(c, ps[q], slot, b); }
  }

  lemma InvalidateAtMarks(ps: Planes, stream: nat, a: PageAddr, p: PlaneId, b: nat, o: Ongoing)
    requires InvalidateAt(ps, stream, a).DeviceDone? && MarksAre(ps, p, b, o)
    ensures MarksAre(InvalidateAt(ps, stream, a).planes, p, b, o)
  {
  }

  lemma EraseAtMarks(c: Config, ps: Planes, q: PlaneId, x: nat, p: PlaneId, b: nat, o: Ongoing)
    requires EraseAt(c, ps, q, x).DeviceDone? && MarksAre(ps, p, b, o)
    ensures MarksAre(EraseAt(c, ps, q, x).planes, p, b, o)
  {
    hide FreePool.Insert;
  }

  /** The literal effect of a mark on what is under way in its block. */
  ghost function AfterMark(o: Ongoing, m: Mark): Ongoing {
    Ongoing(o.readers + (if m == ReadStarted then 1 else if m == ReadFinished then -1 else 0),
            o.programs + (if m == ProgramStarted then 1 else if m == ProgramFinished then -1 else 0),
            if m == GcStarted then true else if m == GcFinished then false else o.gc)
  }

  lemma MarkAtMarks(ps: Planes, q: PlaneId, x: nat, m: Mark, p: PlaneId, b: nat, o: Ongoing)
    requires MarkAt(ps, q, x, m).DeviceDone? && MarksAre(ps, p, b, o)
    ensures MarksAre(MarkAt(ps, q, x, m).planes, p, b, if q == p && x == b then AfterMark(o, m) else o)
  {
    hide MarkedIn;
    MarkMovesOne(ps[q], x, m);
  }

  // ----- one block, across one step -----

  ghost predicate MappedIn(t: Table, k: Key, p: PlaneId, b: nat) {
    k in t && t[k].addr.Some? && IsIn(t[k].addr.value, p, b)
  }

  /** What a completed step from `st` to `st'` makes of the marks `o` of block `b` in plane `p`: a
      user read counts a read in the block of its page, and a program too when it took that page; a
      user write counts a program in the block of its new page, and a read in the block of the old
      one when it does not cover all sectors; moves of the collector and erases count nothing. */
  ghost function After(st: Ftl, step: Step, st': Ftl, p: PlaneId, b: nat, o: Ongoing): Ongoing {
    match step
    case ReadStep(k, _) =>
      var here := MappedIn(st'.table, k, p, b);
      Ongoing(o.readers + (if here then 1 else 0),
              o.programs + (if here && k in st.table && st.table[k].addr == None then 1 else 0), o.gc)
    case WriteStep(k, data) =>
      Ongoing(o.readers + (if MappedIn(st.table, k, p, b) && !(st.table[k].bitmap <= data.Keys) then 1 else 0),
              o.programs + (if MappedIn(st'.table, k, p, b) then 1 else 0), o.gc)
    case MarkStep(q, x, m) => if q == p && x == b then AfterMark(o, m) else o
    case _ => o
  }

  lemma RelocateMarks(c: Config, st: Ftl, ps: Planes, k: Key, kind: Kind, q: PlaneId, bitmap: set<nat>, image: Image,
                      p: PlaneId, b: nat, o: Ongoing)
    requires k in st.table && st.table[k].addr.Some? && MarksAre(ps, p, b, o)
    requires Relocate(c, st, ps, k, kind, q, bitmap, image).Done?
    ensures var st' := Relocate(c, st, ps, k, kind, q, bitmap, image).st;
            var started := kind == Data && MappedIn(st'.table, k, p, b);
            MarksAre(st'.planes, p, b, o.(programs := o.programs + if started then 1 else 0))
  {
    hide InvalidateAt, AllocateAt, MarksAre;
    var ps1 := InvalidateAt(ps, k.stream, st.table[k].addr.value).planes;
    InvalidateAtMarks(ps, k.stream, st.table[k].addr.value, p, b, o);
    AllocateAtMarks(c, ps1, Slot(kind, k.stream), q, p, b, o);
  }

  lemma WriteMarks(c: Config, st: Ftl, k: Key, data: Image, p: PlaneId, b: nat, o: Ongoing)
    requires MarksAre(st.planes, p, b, o) && WritePage(c, st, k, data).Done?
    ensures var st' := WritePage(c, st, k, data).st;
            MarksAre(st'.planes, p, b, After(st, WriteStep(k, data), st', p, b, o))
  {
    hide MarkAt, Relocate, MergedImage, MarksAre;
    var was, prev, home := st.table[k].addr.value, st.table[k].bitmap, c.home(k.stream, k.lpa);
    SetCovers(prev, data.Keys);
    var ps, o1 := st.planes, o;
    if !(prev <= data.Keys) {
      MarkAtMarks(st.planes, was.plane, was.block, ReadStarted, p, b, o);
      ps := MarkAt(st.planes, was.plane, was.block, ReadStarted).planes;
      if IsIn(was, p, b) { o1 := AfterMark(o, ReadStarted); }
    }
    RelocateMarks(c, st, ps, k, Data, home, data.Keys + prev, MergedImage(st, was, prev, data), p, b, o1);
  }

  lemma ReadMarks(c: Config, st: Ftl, k: Key, sectors: set<nat>, p: PlaneId, b: nat, o: Ongoing)
    requires MarksAre(st.planes, p, b, o) && UserRead(c, st, k, sectors).Done?
    ensures var st' := UserRead(c, st, k, sectors).st;
            MarksAre(st'.planes, p, b, After(st, ReadStep(k, sectors), st', p, b, o))
  {
    hide MarkAt, AllocateAt, MarksAre;
    var home, slot := c.home(k.stream, k.lpa), Slot(Data, k.stream);
    var a := UserRead(c, st, k, sectors).st.table[k].addr.value;
    var ps, o1 := st.planes, o;
    if st.table[k].addr == None {
      AllocateAtMarks(c, st.planes, slot, home, p, b, o);
      ps := AllocateAt(c, st.planes, slot, home).planes;
      o1 := o.(programs := o.programs + if IsIn(a, p, b) then 1 else 0);
    }
    MarkAtMarks(ps, a.plane, a.block, ReadStarted, p, b, o1);
  }

  lemma {:induction false} BarrierTouchesNoPlane(st: Ftl, p: PlaneId, b: nat, n: nat)
    requires HasBlock(st.planes, p, b) && BarrierUpTo(st, p, b, n).Done?
    ensures BarrierUpTo(st, p, b, n).st.planes == st.planes
  {
    hide KeyAt, ValidPage;
    if n > 0 { BarrierTouchesNoPlane(st, p, b, n - 1); }
  }

  ghost function OngoingIn(ps: Planes, p: PlaneId, b: nat): Ongoing
    requires HasBlock(ps, p, b)
  {
    Ongoing(ps[p].blocks[b].ongoingReads, ps[p].blocks[b].ongoingPrograms, ps[p].blocks[b].gc)
  }

  /** Every completed step moves the marks of every block by exactly the transactions it starts or
      finishes there. */
  lemma StepMarks(c: Config, st: Ftl, step: Step, p: PlaneId, b: nat)
    requires Exec(c, st, step).Done? && HasBlock(st.planes, p, b)
    ensures var st' := Exec(c, st, step).st;
            && HasBlock(st'.planes, p, b)
            && OngoingIn(st'.planes, p, b) == After(st, step, st', p, b, OngoingIn(st.planes, p, b))
  {
    var o := OngoingIn(st.planes, p, b);
    match step
    case WriteStep(k, data) =>
      hide WritePage;
      WriteMarks(c, st, k, data, p, b, o);
    case ReadStep(k, sectors) =>
      hide UserRead;
      ReadMarks(c, st, k, sectors, p, b, o);
    case GcStep(k, q, sectors) =>
      hide Relocate, View;
      var was, prev := st.table[k].addr.value, st.table[k].bitmap;
      RelocateMarks(c, st, st.planes, k, Gc, q, sectors + prev, View(st.store, was, prev), p, b, o);
    case EraseStep(q, x) =>
      hide EraseAt;
      EraseAtMarks(c, st.planes, q, x, p, b, o);
    case MarkStep(q, x, m) =>
      hide MarkAt;
      MarkAtMarks(st.planes, q, x, m, p, b, o);
    case BarrierStep(q, x) =>
      BarrierTouchesNoPlane(st, q, x, st.planes[q].blocks[x].written);
    case LockStep(_) =>
    case UnlockStep(_) =>
  }

  /** In particular a read that completes raises the read count of the block its page is in by one,
      and that of no other block. */
  lemma ReadCountsOnce(c: Config, st: Ftl, k: Key, sectors: set<nat>, p: PlaneId, b: nat)
    requires UserRead(c, st, k, sectors).Done? && HasBlock(st.planes, p, b)
    ensures var st' := UserRead(c, st, k, sectors).st;
            && k in st'.table && st'.table[k].addr.Some? && HasBlock(st'.planes, p, b)
            && var a := st'.table[k].addr.value;
               st'.planes[p].blocks[b].ongoingReads
               == st.planes[p].blocks[b].ongoingReads + if a.plane == p && a.block == b then 1 else 0
  {
    StepMarks(c, st, ReadStep(k, sectors), p, b);
    hide CreateForRead, MarkAt;
  }

  /** The block of the page a read ends with, and its read count. */
  ghost predicate ReadRaised(ps: Planes, a: PageAddr, ps': Planes) {
    && HasBlock(ps, a.plane, a.block) && HasBlock(ps', a.plane, a.block)
    && ps'[a.plane].blocks[a.block].ongoingReads == ps[a.plane].blocks[a.block].ongoingReads + 1
  }

  lemma ReadRaisesItsBlock(c: Config, st: Ftl, k: Key, sectors: set<nat>)
    requires FtlInv(c, st) && UserRead(c, st, k, sectors).Done?
    ensures var st' := UserRead(c, st, k, sectors).st;
            k in st'.table && st'.table[k].addr.Some? && ReadRaised(st.planes, st'.table[k].addr.value, st'.planes)
  {
    hide FtlInv, UserRead, Contents;
    UserReadFails(c, st, k, sectors);
    var st' := UserReadRefines(c, st, k, sectors);
    var a := st'.table[k].addr.value;
    PageWasInDevice(c, st, st', k);
    ReadCountsOnce(c, st, k, sectors, a.plane, a.block);
  }

  /** The device keeps its blocks. */
  lemma PageWasInDevice(c: Config, st: Ftl, st': Ftl, k: Key)
    requires FtlInv(c, st) && FtlInv(c, st') && st'.planes.Keys == st.planes.Keys
    requires k in st'.table && st'.table[k].addr.Some?
    ensures HasBlock(st.planes, st'.table[k].addr.value.plane, st'.table[k].addr.value.block)
  {
    var a := st'.table[k].addr.value;
    assert EntryOk(c, st', k) && PlaneAt(c, st.planes, a.plane) && PlaneAt(c, st'.planes, a.plane);
  }

  /** And a write raises that of the old page's block by one exactly if it leaves a sector out that
      was written before, and no other. */
  lemma PartialWriteCountsOnce(c: Config, st: Ftl, k: Key, data: Image, p: PlaneId, b: nat)
    requires WritePage(c, st, k, data).Done? && HasBlock(st.planes, p, b)
    ensures k in st.table && st.table[k].addr.Some?
    ensures var st', a := WritePage(c, st, k, data).st, st.table[k].addr.value;
            && HasBlock(st'.planes, p, b)
            && st'.planes[p].blocks[b].ongoingReads
               == st.planes[p].blocks[b].ongoingReads
                  + if a.plane == p && a.block == b && exists s :: s in st.table[k].bitmap && s !in data then 1 else 0
  {
    WriteMarks(c, st, k, data, p, b, OngoingIn(st.planes, p, b));
    hide Relocate, MarkAt;
  }

  // ----- whole runs -----

  /** The marks of a block folded over the completed steps of a run. */
  ghost function FoldedMarks(c: Config, st: Ftl, steps: seq<Step>, p: PlaneId, b: nat, o: Ongoing): Ongoing {
    if steps == [] then o
    else
      var before, last := FoldedMarks(c, st, steps[..|steps| - 1], p, b, o), steps[|steps| - 1];
      match Run(c, st, steps[..|steps| - 1])
      case Halted => before
      case At(st1, _) =>
        if Allowed(c, st1, last) && Exec(c, st1, last).Done? then After(st1, last, Exec(c, st1, last).st, p, b, before)
        else before
  }

  /** Over every run, the counters of every block are its transactions started less those finished,
      and its flag says whether a collection was started there and not finished since. */
  lemma {:induction false} RunMarks(c: Config, st: Ftl, steps: seq<Step>, p: PlaneId, b: nat)
    requires Run(c, st, steps).At? && HasBlock(st.planes, p, b)
    ensures var st' := Run(c, st, steps).st;
            && HasBlock(st'.planes, p, b)
            && OngoingIn(st'.planes, p, b) == FoldedMarks(c, st, steps, p, b, OngoingIn(st.planes, p, b))
  {
    if steps != [] {
      var last := steps[|steps| - 1];
      var before := Run(c, st, steps[..|steps| - 1]);
      RunMarks(c, st, steps[..|steps| - 1], p, b);
      hide Exec, Allowed, After, OngoingIn, HasBlock;
      if Exec(c, before.st, last).Done? { StepMarks(c, before.st, last, p, b); }
    }
  }
}
