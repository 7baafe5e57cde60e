/** Runs whose collections only start on blocks that pass the collector's own safety test. */
module SafeVictims {
  import opened FlashTypes
  import opened PlaneModel
  import opened PlaneProofs
  import opened Marks
  import opened DeviceModel
  import opened FtlModel
  import opened FtlProofs
  import opened FtlSteps
  import opened GcCycle
  import opened FtlRuns
  import opened OngoingMarks
  import opened GcWl
  import opened CollectionRuns

  // ----- no program under way -----

  /** No block is marked, except that one program may be under way in the block of page `but`. */
  ghost predicate QuietBut(ps: Planes, but: Option<PageAddr>) {
    forall p, b: nat :: HasBlock(ps, p, b) ==>
      && !ps[p].blocks[b].gc
      && ps[p].blocks[b].ongoingPrograms
         <= if but.Some? && but.value.plane == p && but.value.block == b then 1 else 0
  }

  ghost predicate Quiet(ps: Planes) {
    QuietBut(ps, None)
  }

  lemma AllocateStaysQuiet(c: Config, ps: Planes, slot: Slot, p: PlaneId)
    requires Quiet(ps) && AllocateAt(c, ps, slot, p).GotPage?
    ensures var r := AllocateAt(c, ps, slot, p); QuietBut(r.planes, if slot.kind == Data then Some(r.addr) else None)
  {
    var r := AllocateAt(c, ps, slot, p);
    hide Allocate;
    forall q, b: nat | HasBlock(r.planes, q, b)
      ensures HasBlock(ps, q, b) && !r.planes[q].blocks[b].gc
      ensures r.planes[q].blocks[b].ongoingPrograms
              <= if slot.kind == Data && r.addr.plane == q && r.addr.block == b then 1 else 0
    {
      if q == p { AllocateChanges(c, ps[p], slot); AllocateMarks(c, ps[p], slot, b); }
    }
  }

  lemma InvalidateStaysQuiet(ps: Planes, stream: nat, a: PageAddr)
    requires Quiet(ps) && InvalidateAt(ps, stream, a).DeviceDone?
    ensures Quiet(InvalidateAt(ps, stream, a).planes)
  {
    assert forall q, b: nat :: HasBlock(InvalidateAt(ps, stream, a).planes, q, b) ==> HasBlock(ps, q, b);
  }

  lemma EraseStaysQuiet(c: Config, ps: Planes, p: PlaneId, b: nat)
    requires Quiet(ps) && EraseAt(c, ps, p, b).DeviceDone?
    ensures Quiet(EraseAt(c, ps, p, b).planes)
  {
    hide FreePool.Insert;
    assert forall q, x: nat :: HasBlock(EraseAt(c, ps, p, b).planes, q, x) ==> HasBlock(ps, q, x);
  }

  lemma ReadStaysQuiet(ps: Planes, p: PlaneId, b: nat, but: Option<PageAddr>)
    requires QuietBut(ps, but) && MarkAt(ps, p, b, ReadStarted).DeviceDone?
    ensures QuietBut(MarkAt(ps, p, b, ReadStarted).planes, but)
  {
    assert forall q, x: nat :: HasBlock(MarkAt(ps, p, b, ReadStarted).planes, q, x) ==> HasBlock(ps, q, x);
  }

  lemma FinishQuiets(ps: Planes, a: PageAddr)
    requires QuietBut(ps, Some(a)) && MarkAt(ps, a.plane, a.block, ProgramFinished).DeviceDone?
    ensures Quiet(MarkAt(ps, a.plane, a.block, ProgramFinished).planes)
  {
    var ps' := MarkAt(ps, a.plane, a.block, ProgramFinished).planes;
    assert forall q, x: nat :: HasBlock(ps', q, x) ==> HasBlock(ps, q, x);
  }

  // ----- steps -----

  lemma RelocateStaysQuiet(c: Config, st: Ftl, ps: Planes, k: Key, kind: Kind, p: PlaneId, bitmap: set<nat>,
                           image: Image)
    requires k in st.table && st.table[k].addr.Some? && Quiet(ps)
    requires Relocate(c, st, ps, k, kind, p, bitmap, image).Done?
    ensures var st' := Relocate(c, st, ps, k, kind, p, bitmap, image).st;
            k in st'.table && QuietBut(st'.planes, if kind == Data then st'.table[k].addr else None)
  {
    hide InvalidateAt, AllocateAt, QuietBut;
    var ps1 := InvalidateAt(ps, k.stream, st.table[k].addr.value).planes;
    InvalidateStaysQuiet(ps, k.stream, st.table[k].addr.value);
    AllocateStaysQuiet(c, ps1, Slot(kind, k.stream), p);
  }

  /** The steps of a collection start and finish no program. */
  lemma CollectorStaysQuiet(c: Config, st: Ftl, step: Step)
    requires Quiet(st.planes) && CollectorStep(step) && Exec(c, st, step).Done?
    ensures Quiet(Exec(c, st, step).st.planes)
  {
    hide QuietBut;
    match step
    case GcStep(k, p, sectors) =>
      hide Relocate, View;
      var prev := st.table[k].bitmap;
      RelocateStaysQuiet(c, st, st.planes, k, Gc, p, sectors + prev, View(st.store, st.table[k].addr.value, prev));
    case EraseStep(p, b) =>
      hide EraseAt;
      EraseStaysQuiet(c, st.planes, p, b);
    case BarrierStep(p, b) =>
      BarrierTouchesNoPlane(st, p, b, st.planes[p].blocks[b].written);
    case UnlockStep(_) =>
  }

  /** The page whose program a request leaves under way. */
  ghost function UnderWay(st: Ftl, step: Step, st': Ftl): Option<PageAddr>
    requires HostStep(step) && step.key in st.table && step.key in st'.table
  {
    if step.WriteStep? || st.table[step.key].addr == None then st'.table[step.key].addr else None
  }

  lemma RequestQuietBut(c: Config, st: Ftl, step: Step)
    requires Quiet(st.planes) && HostStep(step) && Exec(c, st, step).Done?
    ensures var st' := Exec(c, st, step).st;
            step.key in st.table && step.key in st'.table && QuietBut(st'.planes, UnderWay(st, step, st'))
  {
    hide QuietBut, MarkAt, AllocateAt, Relocate, MergedImage;
    var k := step.key;
    match step
    case WriteStep(_, data) =>
      var was, prev, home := st.table[k].addr.value, st.table[k].bitmap, c.home(k.stream, k.lpa);
      var ps := st.planes;
      if prev * data.Keys != prev {
        ReadStaysQuiet(st.planes, was.plane, was.block, None);
        ps := MarkAt(st.planes, was.plane, was.block, ReadStarted).planes;
      }
      RelocateStaysQuiet(c, st, ps, k, Data, home, data.Keys + prev, MergedImage(st, was, prev, data));
    case ReadStep(_, sectors) =>
      var home, slot := c.home(k.stream, k.lpa), Slot(Data, k.stream);
      var a := Exec(c, st, step).st.table[k].addr.value;
      if st.table[k].addr == None {
        AllocateStaysQuiet(c, st.planes, slot, home);
        ReadStaysQuiet(AllocateAt(c, st.planes, slot, home).planes, a.plane, a.block, Some(a));
      } else {
        ReadStaysQuiet(st.planes, a.plane, a.block, None);
      }
  }

  lemma {:induction false} CollectorRunStaysQuiet(c: Config, st: Ftl, steps: seq<Step>, st': Ftl)
    requires LeadsTo(c, st, steps, st') && CollectorOnly(steps) && Quiet(st.planes)
    ensures Quiet(st'.planes)
  {
    hide Exec, Allowed, QuietBut, Run;
    if steps == [] {
      RunNothing(c, st);
    } else {
      CompletedBefore(c, st, steps, st');
      var before := Run(c, st, steps[..|steps| - 1]).st;
      CollectorRunStaysQuiet(c, st, steps[..|steps| - 1], before);
      CollectorStaysQuiet(c, before, steps[|steps| - 1]);
    }
  }

  // ----- runs that start collections on safe blocks only -----

  /** The collector's safety test and the test that the block is full hold of the victim. */
  ghost predicate SafeVictim(c: Config, st: Ftl, p: PlaneId, b: nat) {
    HasBlock(st.planes, p, b) && Collectable(st.planes[p], c.pagesPerBlock, b)
  }

  /** With no program under way, every full block passes. */
  lemma FullBlockIsSafe(c: Config, st: Ftl, p: PlaneId, b: nat)
    requires FtlInv(c, st) && Quiet(st.planes) && FullBlock(c, st, p, b)
    ensures SafeVictim(c, st, p, b)
  {
    assert PlaneAt(c, st.planes, p);
    FullBlockIsClosed(c, st.planes[p], b);
    hide FtlInv, PlaneInv;
  }

  /** Every barrier of the run is set over a block that was a safe victim at that moment. */
  ghost predicate SafeBarriers(c: Config, st: Ftl, steps: seq<Step>) {
    forall i :: 0 <= i < |steps| ==> SafeAt(c, st, steps, i)
  }

  ghost predicate SafeAt(c: Config, st: Ftl, steps: seq<Step>, i: nat)
    requires i < |steps|
  {
    match steps[i]
    case BarrierStep(p, b) => Run(c, st, steps[..i]).At? && SafeVictim(c, Run(c, st, steps[..i]).st, p, b)
    case _ => true
  }

  lemma {:induction false} PrefixLeads(c: Config, st: Ftl, steps: seq<Step>, st': Ftl, n: nat) returns (mid: Ftl)
    requires LeadsTo(c, st, steps, st') && n <= |steps|
    ensures LeadsTo(c, st, steps[..n], mid)
  {
    hide Exec, Allowed, Run;
    if n == |steps| {
      assert steps[..n] == steps;
      mid := st';
    } else {
      CompletedBefore(c, st, steps, st');
      mid := PrefixLeads(c, st, steps[..|steps| - 1], Run(c, st, steps[..|steps| - 1]).st, n);
      assert steps[..|steps| - 1][..n] == steps[..n];
    }
  }

  lemma SafeFurther(c: Config, st: Ftl, steps: seq<Step>, st1: Ftl, more: seq<Step>, st2: Ftl)
    requires LeadsTo(c, st, steps, st1) && LeadsTo(c, st1, more, st2)
    requires SafeBarriers(c, st, steps) && SafeBarriers(c, st1, more)
    ensures SafeBarriers(c, st, steps + more)
  {
    hide Run, SafeVictim;
    var all := steps + more;
    forall i | 0 <= i < |all| ensures SafeAt(c, st, all, i) {
      if i < |steps| {
        assert all[..i] == steps[..i] && SafeAt(c, st, steps, i);
      } else {
        var n := i - |steps|;
        var mid := PrefixLeads(c, st1, more, st2, n);
        LeadsFurther(c, st, steps, st1, more[..n], mid);
        assert all[..i] == steps + more[..n] && SafeAt(c, st1, more, n);
      }
    }
  }

  /** A collection of a safe victim, as a run. */
  lemma SafeCollection(c: Config, st: Ftl, p: PlaneId, b: nat) returns (steps: seq<Step>)
    requires FtlInv(c, st) && FullBlock(c, st, p, b) && Collect(c, st, p, b).Done? && SafeVictim(c, st, p, b)
    ensures LeadsTo(c, st, steps, Collect(c, st, p, b).st) && CollectorOnly(steps) && SafeBarriers(c, st, steps)
  {
    hide FtlInv, LeadsTo, Collect, SafeVictim, Run;
    var moves, st1 := CollectIsRun(c, st, p, b);
    var barrier, rest := [BarrierStep(p, b)], moves + [EraseStep(p, b)];
    steps := barrier + rest;
    assert barrier[..0] == [];
    RunNothing(c, st);
    assert SafeAt(c, st, barrier, 0);
    SafeFurther(c, st, barrier, st1, rest, Collect(c, st, p, b).st);
  }
}
