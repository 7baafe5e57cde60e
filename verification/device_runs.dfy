/** Runs of the translation layer seen as runs of its planes: every step is a few plane steps, so
    programming order, wear and pool order of single planes hold over whole runs. */
module DeviceRuns {
  import opened FlashTypes
  import opened FreePool
  import opened PlaneModel
  import opened PlaneProofs
  import opened Marks
  import opened InitialPlanes
  import opened PlaneRuns
  import opened DeviceModel
  import opened FtlModel
  import opened FtlProofs
  import opened FtlSteps
  import opened GcCycle
  import opened FtlRuns

  // ----- plane steps anywhere in the device -----

  /** A plane step, and an event of a plane, with the plane it belongs to. */
  datatype Op = Op(plane: PlaneId, step: PlaneStep)

  datatype Happening = Happening(plane: PlaneId, event: Event)

  datatype OpsRun = OpsStuck | OpsReached(planes: Planes, log: seq<Happening>)

  ghost function Tagged(p: PlaneId, events: seq<Event>): (r: seq<Happening>)
    ensures |r| == |events| && forall i :: 0 <= i < |r| ==> r[i] == Happening(p, events[i])
  {
    seq(|events|, i requires 0 <= i < |events| => Happening(p, events[i]))
  }

  ghost function OpExec(c: Config, ps: Planes, op: Op): OpsRun {
    if op.plane !in ps then OpsStuck
    else
      match PlaneExec(c, ps[op.plane], op.step)
      case Stuck => OpsStuck
      case Reached(pl, events) => OpsReached(ps[op.plane := pl], Tagged(op.plane, events))
  }

  ghost function RunOps(c: Config, ps: Planes, ops: seq<Op>): OpsRun {
    if ops == [] then OpsReached(ps, [])
    else
      match RunOps(c, ps, ops[..|ops| - 1])
      case OpsStuck => OpsStuck
      case OpsReached(ps1, log) =>
        match OpExec(c, ps1, ops[|ops| - 1])
        case OpsStuck => OpsStuck
        case OpsReached(ps2, more) => OpsReached(ps2, log + more)
  }

  /** The steps, and the events, of one plane. */
  ghost function StepsIn(ops: seq<Op>, p: PlaneId): seq<PlaneStep> {
    if ops == [] then []
    else StepsIn(ops[..|ops| - 1], p) + if ops[|ops| - 1].plane == p then [ops[|ops| - 1].step] else []
  }

  ghost function EventsIn(log: seq<Happening>, p: PlaneId): seq<Event> {
    if log == [] then []
    else EventsIn(log[..|log| - 1], p) + if log[|log| - 1].plane == p then [log[|log| - 1].event] else []
  }

  lemma {:induction false} TaggedEvents(log: seq<Happening>, q: PlaneId, events: seq<Event>, p: PlaneId)
    ensures EventsIn(log + Tagged(q, events), p) == EventsIn(log, p) + if q == p then events else []
  {
    if events == [] {
      assert log + Tagged(q, events) == log;
    } else {
      var n := |events| - 1;
      var longer := log + Tagged(q, events);
      TaggedEvents(log, q, events[..n], p);
      assert longer[..|longer| - 1] == log + Tagged(q, events[..n]);
      assert events == events[..n] + [events[n]];
      assert EventsIn(log, p) + events[..n] + [events[n]] == EventsIn(log, p) + (events[..n] + [events[n]]);
    }
  }

  lemma {:induction false} PlaneRunNext(c: Config, pl: Plane, steps: seq<PlaneStep>, step: PlaneStep)
    requires RunPlane(c, pl, steps).Reached? && PlaneExec(c, RunPlane(c, pl, steps).plane, step).Reached?
    ensures var r := RunPlane(c, pl, steps); var r' := PlaneExec(c, r.plane, step);
            RunPlane(c, pl, steps + [step]) == Reached(r'.plane, r.log + r'.log)
  {
    hide PlaneExec;
    assert (steps + [step])[..|steps + [step]| - 1] == steps;
  }

  /** One step seen from plane `p`: its own step, or nothing. */
  lemma {:induction false} OpProjects(c: Config, ps: Planes, op: Op, log: seq<Happening>, p: PlaneId)
    requires OpExec(c, ps, op).OpsReached? && p in ps
    ensures var r := OpExec(c, ps, op);
            && r.planes.Keys == ps.Keys
            && (op.plane != p ==> r.planes[p] == ps[p] && EventsIn(log + r.log, p) == EventsIn(log, p))
            && (op.plane == p ==>
                  && PlaneExec(c, ps[p], op.step).Reached?
                  && r.planes[p] == PlaneExec(c, ps[p], op.step).plane
                  && EventsIn(log + r.log, p) == EventsIn(log, p) + PlaneExec(c, ps[p], op.step).log)
  {
    hide PlaneExec, EventsIn;
    TaggedEvents(log, op.plane, PlaneExec(c, ps[op.plane], op.step).log, p);
    assert EventsIn(log, p) + [] == EventsIn(log, p);
  }

  /** A run of steps across the device is, in each plane, the run of the plane's own steps. */
  lemma {:induction false} RunsProject(c: Config, ps: Planes, ops: seq<Op>, p: PlaneId)
    requires p in ps && RunOps(c, ps, ops).OpsReached?
    ensures var r := RunOps(c, ps, ops);
            && r.planes.Keys == ps.Keys
            && RunPlane(c, ps[p], StepsIn(ops, p)) == Reached(r.planes[p], EventsIn(r.log, p))
  {
    if ops == [] {
      EmptyRun(c, ps[p]);
    } else {
      var n, op := |ops| - 1, ops[|ops| - 1];
      RunsProject(c, ps, ops[..n], p);
      var before := RunOps(c, ps, ops[..n]);
      hide PlaneExec, RunPlane, OpExec, EventsIn;
      OpProjects(c, before.planes, op, before.log, p);
      if op.plane == p {
        PlaneRunNext(c, ps[p], StepsIn(ops[..n], p), op.step);
      } else {
        assert StepsIn(ops, p) == StepsIn(ops[..n], p);
      }
    }
  }

  lemma {:induction false} RunsConcatenate(c: Config, ps: Planes, ops: seq<Op>, more: seq<Op>)
    requires RunOps(c, ps, ops).OpsReached? && RunOps(c, RunOps(c, ps, ops).planes, more).OpsReached?
    ensures var r1 := RunOps(c, ps, ops); var r2 := RunOps(c, r1.planes, more);
            RunOps(c, ps, ops + more) == OpsReached(r2.planes, r1.log + r2.log)
  {
    hide OpExec;
    var all := ops + more;
    if more == [] {
      assert all == ops && RunOps(c, ps, ops).log + [] == RunOps(c, ps, ops).log;
    } else {
      var n := |more| - 1;
      RunsConcatenate(c, ps, ops, more[..n]);
      assert all[..|all| - 1] == ops + more[..n];
      var r1 := RunOps(c, ps, ops);
      var r2 := RunOps(c, r1.planes, more[..n]);
      var r3 := OpExec(c, r2.planes, more[n]);
      assert r1.log + r2.log + r3.log == r1.log + (r2.log + r3.log);
    }
  }

  // ----- the plane steps of a step -----

  ghost function WhenIn(yes: bool, p: PlaneId, step: PlaneStep): seq<Op> {
    if yes then [Op(p, step)] else []
  }

  /** The plane steps a step of the translation layer takes when it completes. */
  ghost function OpsOf(c: Config, st: Ftl, step: Step): seq<Op>
    requires Exec(c, st, step).Done?
  {
    match step
    case WriteStep(k, data) => OverwriteOps(c, st, k, data)
    case ReadStep(k, sectors) => ReadOps(c, st, k, Exec(c, st, step).st)
    case GcStep(k, p, _) => MoveOps(st, k, Gc, p)
    case EraseStep(p, b) => [Op(p, Return(b))]
    case MarkStep(p, b, m) => [Op(p, Stamp(b, m))]
    case _ => []
  }

  ghost function MoveOps(st: Ftl, k: Key, kind: Kind, p: PlaneId): seq<Op> {
    if k in st.table && st.table[k].addr.Some? then
      var was := st.table[k].addr.value;
      [Op(was.plane, Drop(was.block, was.page)), Op(p, Take(Slot(kind, k.stream)))]
    else []
  }

  ghost function OverwriteOps(c: Config, st: Ftl, k: Key, data: Image): seq<Op> {
    if k in st.table && st.table[k].addr.Some? then
      var was := st.table[k].addr.value;
      WhenIn(st.table[k].bitmap * data.Keys != st.table[k].bitmap, was.plane, Stamp(was.block, ReadStarted))
      + MoveOps(st, k, Data, c.home(k.stream, k.lpa))
    else []
  }

  ghost function ReadOps(c: Config, st: Ftl, k: Key, st': Ftl): seq<Op> {
    if k in st.table && k in st'.table && st'.table[k].addr.Some? then
      var a := st'.table[k].addr.value;
      WhenIn(st.table[k].addr == None, c.home(k.stream, k.lpa), Take(Slot(Data, k.stream)))
      + [Op(a.plane, Stamp(a.block, ReadStarted))]
    else []
  }

  lemma {:induction false} OneOp(c: Config, ps: Planes, op: Op)
    requires OpExec(c, ps, op).OpsReached?
    ensures RunOps(c, ps, [op]) == OpExec(c, ps, op)
  {
    assert [op][..0] == [];
    hide OpExec;
    assert [] + OpExec(c, ps, op).log == OpExec(c, ps, op).log;
  }

  lemma {:induction false} StampOp(c: Config, ps: Planes, p: PlaneId, b: nat, m: Mark)
    requires MarkAt(ps, p, b, m).DeviceDone?
    ensures RunOps(c, ps, [Op(p, Stamp(b, m))]) == OpsReached(MarkAt(ps, p, b, m).planes, [])
  {
    OneOp(c, ps, Op(p, Stamp(b, m)));
  }

  lemma {:induction false} DropOp(c: Config, ps: Planes, stream: nat, a: PageAddr)
    requires InvalidateAt(ps, stream, a).DeviceDone? && Live(ps, a)
    ensures RunOps(c, ps, [Op(a.plane, Drop(a.block, a.page))]) == OpsReached(InvalidateAt(ps, stream, a).planes, [])
  {
    OneOp(c, ps, Op(a.plane, Drop(a.block, a.page)));
  }

  /** The events of handing out page `a`: the next block may be opened afterwards. */
  ghost predicate HandsOut(log: seq<Happening>, a: PageAddr) {
    && |log| >= 1 && log[0] == Happening(a.plane, Handed(a.block, a.page))
    && forall i :: 1 <= i < |log| ==> log[i].event.Opened?
  }

  lemma {:induction false} TakeOp(c: Config, ps: Planes, slot: Slot, p: PlaneId)
    requires AllocateAt(c, ps, slot, p).GotPage? && slot.stream < c.streams
    ensures var r := RunOps(c, ps, [Op(p, Take(slot))]);
            && r.OpsReached? && r.planes == AllocateAt(c, ps, slot, p).planes
            && HandsOut(r.log, AllocateAt(c, ps, slot, p).addr)
  {
    hide Allocate;
    OneOp(c, ps, Op(p, Take(slot)));
  }

  lemma {:induction false} ReturnOp(c: Config, ps: Planes, p: PlaneId, b: nat)
    requires EraseAt(c, ps, p, b).DeviceDone? && FullyInvalid(c, ps[p], b)
    ensures RunOps(c, ps, [Op(p, Return(b))]) == OpsReached(EraseAt(c, ps, p, b).planes, [Happening(p, Wiped(b))])
  {
    hide Erase, FullyInvalid;
    OneOp(c, ps, Op(p, Return(b)));
  }

  /** The page a completed step newly maps. */
  ghost function NewPage(c: Config, st: Ftl, step: Step): Option<PageAddr>
    requires Exec(c, st, step).Done?
  {
    var st' := Exec(c, st, step).st;
    match step
    case WriteStep(k, _) => if k in st'.table then st'.table[k].addr else None
    case GcStep(k, _, _) => if k in st'.table then st'.table[k].addr else None
    case ReadStep(k, _) =>
      if k in st.table && st.table[k].addr == None && k in st'.table then st'.table[k].addr else None
    case _ => None
  }

  /** The events of a completed step: its new page, if any, is handed out; an erase wipes its
      block. */
  ghost predicate StepLog(c: Config, st: Ftl, step: Step, log: seq<Happening>)
    requires Exec(c, st, step).Done?
  {
    match NewPage(c, st, step)
    case Some(a) => HandsOut(log, a)
    case None => log == if step.EraseStep? then [Happening(step.plane, Wiped(step.block))] else []
  }

  /** A relocation drops the old page and takes the new one. */
  lemma {:induction false} MoveIsOps(c: Config, st: Ftl, ps: Planes, k: Key, kind: Kind, p: PlaneId, bitmap: set<nat>,
                                     image: Image)
    requires k in st.table && st.table[k].addr.Some? && k.stream < c.streams && Live(ps, st.table[k].addr.value)
    requires Relocate(c, st, ps, k, kind, p, bitmap, image).Done?
    ensures var r := RunOps(c, ps, MoveOps(st, k, kind, p));
            var st' := Relocate(c, st, ps, k, kind, p, bitmap, image).st;
            && r.OpsReached? && r.planes == st'.planes
            && k in st'.table && st'.table[k].addr.Some? && HandsOut(r.log, st'.table[k].addr.value)
  {
    hide InvalidateAt, AllocateAt, RunOps, HandsOut;
    var was, slot := st.table[k].addr.value, Slot(kind, k.stream);
    var ps1 := InvalidateAt(ps, k.stream, was).planes;
    var drop, take := Op(was.plane, Drop(was.block, was.page)), Op(p, Take(slot));
    DropOp(c, ps, k.stream, was);
    TakeOp(c, ps1, slot, p);
    RunsConcatenate(c, ps, [drop], [take]);
    assert [drop] + [take] == MoveOps(st, k, kind, p);
    assert [] + RunOps(c, ps1, [take]).log == RunOps(c, ps1, [take]).log;
  }

  lemma {:induction false} WriteIsOps(c: Config, st: Ftl, k: Key, data: Image)
    requires FtlInv(c, st) && Exec(c, st, WriteStep(k, data)).Done?
    ensures var step := WriteStep(k, data); var r := RunOps(c, st.planes, OpsOf(c, st, step));
            r.OpsReached? && r.planes == Exec(c, st, step).st.planes && StepLog(c, st, step, r.log)
  {
    hide DeviceOk, CountsOk, RunOps, Relocate, MoveOps, MergedImage, HandsOut;
    var was, home, prev := st.table[k].addr.value, c.home(k.stream, k.lpa), st.table[k].bitmap;
    assert EntryOk(c, st, k);
    if prev * data.Keys == prev {
      MoveIsOps(c, st, st.planes, k, Data, home, data.Keys + prev, MergedImage(st, was, prev, data));
      assert [] + MoveOps(st, k, Data, home) == MoveOps(st, k, Data, home);
    } else {
      var ps := MarkAt(st.planes, was.plane, was.block, ReadStarted).planes;
      MarkAtPages(st.planes, was.plane, was.block, ReadStarted);
      StampOp(c, st.planes, was.plane, was.block, ReadStarted);
      MoveIsOps(c, st, ps, k, Data, home, data.Keys + prev, MergedImage(st, was, prev, data));
      hide MarkAt, FtlInv;
      RunsConcatenate(c, st.planes, [Op(was.plane, Stamp(was.block, ReadStarted))], MoveOps(st, k, Data, home));
      assert [] + RunOps(c, ps, MoveOps(st, k, Data, home)).log == RunOps(c, ps, MoveOps(st, k, Data, home)).log;
    }
  }

  lemma {:induction false} GcIsOps(c: Config, st: Ftl, k: Key, p: PlaneId, sectors: set<nat>)
    requires FtlInv(c, st) && Exec(c, st, GcStep(k, p, sectors)).Done?
    ensures var step := GcStep(k, p, sectors); var r := RunOps(c, st.planes, OpsOf(c, st, step));
            r.OpsReached? && r.planes == Exec(c, st, step).st.planes && StepLog(c, st, step, r.log)
  {
    hide DeviceOk, CountsOk, RunOps, Relocate, MoveOps, HandsOut, View;
    assert EntryOk(c, st, k);
    var prev := st.table[k].bitmap;
    MoveIsOps(c, st, st.planes, k, Gc, p, sectors + prev, View(st.store, st.table[k].addr.value, prev));
  }

  lemma {:induction false} ReadIsOps(c: Config, st: Ftl, k: Key, sectors: set<nat>)
    requires FtlInv(c, st) && Exec(c, st, ReadStep(k, sectors)).Done?
    ensures var step := ReadStep(k, sectors); var r := RunOps(c, st.planes, OpsOf(c, st, step));
            r.OpsReached? && r.planes == Exec(c, st, step).st.planes && StepLog(c, st, step, r.log)
  {
    hide DeviceOk, CountsOk, RunOps, AllocateAt, MarkAt, HandsOut;
    assert EntryOk(c, st, k);
    var st' := Exec(c, st, ReadStep(k, sectors)).st;
    var a := st'.table[k].addr.value;
    var stamp := Op(a.plane, Stamp(a.block, ReadStarted));
    if st.table[k].addr == None {
      var home, slot := c.home(k.stream, k.lpa), Slot(Data, k.stream);
      var take := Op(home, Take(slot));
      var ps := AllocateAt(c, st.planes, slot, home).planes;
      TakeOp(c, st.planes, slot, home);
      StampOp(c, ps, a.plane, a.block, ReadStarted);
      hide FtlInv;
      RunsConcatenate(c, st.planes, [take], [stamp]);
      assert RunOps(c, st.planes, [take]).log + [] == RunOps(c, st.planes, [take]).log;
    } else {
      StampOp(c, st.planes, a.plane, a.block, ReadStarted);
      assert [] + [stamp] == [stamp];
    }
  }

  /** Every completed step is the run of its plane steps, from the planes before it to those after
      it; it hands out exactly the page it newly maps, and an erase wipes exactly its block. */
  lemma {:induction false} StepIsOps(c: Config, st: Ftl, step: Step)
    requires FtlInv(c, st) && Allowed(c, st, step) && Exec(c, st, step).Done?
    ensures var r := RunOps(c, st.planes, OpsOf(c, st, step));
            r.OpsReached? && r.planes == Exec(c, st, step).st.planes && StepLog(c, st, step, r.log)
  {
    hide RunOps;
    match step
    case WriteStep(k, data) =>
      WriteIsOps(c, st, k, data);
    case ReadStep(k, sectors) =>
      ReadIsOps(c, st, k, sectors);
    case GcStep(k, p, sectors) =>
      GcIsOps(c, st, k, p, sectors);
    case EraseStep(p, b) =>
      hide FtlInv, FullyInvalid, EraseAt;
      ReturnOp(c, st.planes, p, b);
    case MarkStep(p, b, m) =>
      hide FtlInv, MarkAt;
      StampOp(c, st.planes, p, b, m);
    case BarrierStep(p, b) =>
      var st' := BarrierRefines(c, st, p, b);
      hide FtlInv, SetBarrier, KeysInBlock, Contents;
      NoOps(c, st.planes);
    case LockStep(_) => hide FtlInv; NoOps(c, st.planes);
    case UnlockStep(_) => hide FtlInv; NoOps(c, st.planes);
  }

  lemma {:induction false} NoOps(c: Config, ps: Planes)
    ensures RunOps(c, ps, []) == OpsReached(ps, [])
  {
  }

  // ----- whole runs -----

  ghost predicate Completes(c: Config, st: Ftl, step: Step) {
    Allowed(c, st, step) && Exec(c, st, step).Done?
  }

  /** The plane steps of a run, completed step by completed step. */
  ghost function Trace(c: Config, st: Ftl, steps: seq<Step>): seq<Op> {
    if steps == [] then []
    else
      var last := steps[|steps| - 1];
      Trace(c, st, steps[..|steps| - 1])
      + match Run(c, st, steps[..|steps| - 1])
        case Halted => []
        case At(st1, _) => if Completes(c, st1, last) then OpsOf(c, st1, last) else []
  }

  /** What happens to the blocks of the device over a run. */
  ghost function History(c: Config, st: Ftl, steps: seq<Step>): seq<Happening> {
    if steps == [] then []
    else
      var last := steps[|steps| - 1];
      History(c, st, steps[..|steps| - 1])
      + match Run(c, st, steps[..|steps| - 1])
        case Halted => []
        case At(st1, _) => if Completes(c, st1, last) then LogOf(c, st1, last) else []
  }

  ghost function LogOf(c: Config, st: Ftl, step: Step): seq<Happening>
    requires Exec(c, st, step).Done?
  {
    match RunOps(c, st.planes, OpsOf(c, st, step)) case OpsStuck => [] case OpsReached(_, log) => log
  }

  /** Every run of the translation layer is a run of plane steps over its planes. */
  lemma {:induction false} RunIsOps(c: Config, st: Ftl, steps: seq<Step>)
    requires FtlInv(c, st) && Run(c, st, steps).At?
    ensures RunOps(c, st.planes, Trace(c, st, steps)) == OpsReached(Run(c, st, steps).st.planes, History(c, st, steps))
  {
    hide FtlInv, Allowed, Exec, OpsOf, RunOps;
    if steps == [] {
      NoOps(c, st.planes);
    } else {
      var last := steps[|steps| - 1];
      var before := Run(c, st, steps[..|steps| - 1]);
      RunIsOps(c, st, steps[..|steps| - 1]);
      RunRefines(c, st, steps[..|steps| - 1]);
      hide Contents;
      if Exec(c, before.st, last).Done? {
        StepIsOps(c, before.st, last);
        hide StepLog;
        RunsConcatenate(c, st.planes, Trace(c, st, steps[..|steps| - 1]), OpsOf(c, before.st, last));
      } else {
        assert Trace(c, st, steps) == Trace(c, st, steps[..|steps| - 1]);
        assert History(c, st, steps) == History(c, st, steps[..|steps| - 1]);
      }
    }
  }

  /** Over every run from the constructed device, in every plane: pages of a block are handed out
      in order from 0 after each wipe, the erase counts add up to the wipes, and without dynamic
      wear levelling blocks are opened in exactly the order in which they entered the pool. Writes,
      reads, relocations between planes, erases and marks may interleave in any way. */
  lemma {:induction false} PlanesExplained(c: Config, ids: set<PlaneId>, keys: set<Key>, steps: seq<Step>, p: PlaneId)
    requires GoodDevice(c, ids, keys) && p in ids && Run(c, Initial(c, ids, keys), steps).At?
    ensures var st0 := Initial(c, ids, keys); var r := Run(c, st0, steps);
            p in r.st.planes && Explains(c, InitialPlane(c), r.st.planes[p], EventsIn(History(c, st0, steps), p))
  {
    hide FtlInv, Contents, Explains, InitialPlane, PlaneInv, RunOps, RunPlane;
    var st0 := Initial(c, ids, keys);
    InitialInv(c, ids, keys);
    InitialPlaneInv(c);
    RunIsOps(c, st0, steps);
    RunsProject(c, st0.planes, Trace(c, st0, steps), p);
    RunExplained(c, InitialPlane(c), StepsIn(Trace(c, st0, steps), p));
  }

  // ----- program once -----

  lemma {:induction false} EventsPrefix(log: seq<Happening>, p: PlaneId, n: nat)
    requires n <= |log|
    ensures EventsIn(log[..n], p) <= EventsIn(log, p)
  {
    if n == |log| {
      assert log[..n] == log;
    } else {
      EventsPrefix(log[..|log| - 1], p, n);
      assert log[..|log| - 1][..n] == log[..n];
    }
  }

  lemma {:induction false} FewerEvents(log: seq<Happening>, p: PlaneId, n: nat, m: nat)
    requires n <= m <= |log|
    ensures |EventsIn(log[..n], p)| <= |EventsIn(log[..m], p)|
  {
    EventsPrefix(log[..m], p, n);
    assert log[..m][..n] == log[..n];
  }

  /** A happening of plane `p` is the event at its place among the plane's events. */
  lemma {:induction false} EventAt(log: seq<Happening>, p: PlaneId, i: nat)
    requires i < |log| && log[i].plane == p
    ensures var n := |EventsIn(log[..i], p)|;
            n < |EventsIn(log[..i + 1], p)| <= |EventsIn(log, p)| && EventsIn(log, p)[n] == log[i].event
  {
    EventsPrefix(log, p, i + 1);
    assert log[..i + 1][..i] == log[..i];
  }

  lemma {:induction false} WhichHappening(log: seq<Happening>, p: PlaneId, n: nat) returns (i: nat)
    requires n < |EventsIn(log, p)|
    ensures i < |log| && |EventsIn(log[..i], p)| == n && log[i] == Happening(p, EventsIn(log, p)[n])
  {
    var before := log[..|log| - 1];
    if n < |EventsIn(before, p)| {
      i := WhichHappening(before, p, n);
      assert before[..i] == log[..i];
    } else {
      i := |log| - 1;
    }
  }

  /** Program once, over the whole device: over every run, whatever the streams, the kinds of open
      block and the planes between which pages move, no physical page is handed out twice unless
      its block was wiped in between. */
  lemma {:induction false} PagesProgrammedOnce(c: Config, ids: set<PlaneId>, keys: set<Key>, steps: seq<Step>, i: nat,
                                               j: nat)
    requires GoodDevice(c, ids, keys) && Run(c, Initial(c, ids, keys), steps).At?
    requires i < j < |History(c, Initial(c, ids, keys), steps)|
    ensures var log := History(c, Initial(c, ids, keys), steps);
            log[i].event.Handed? && log[i] == log[j] ==>
              exists m :: i < m < j && log[m] == Happening(log[i].plane, Wiped(log[i].event.block))
  {
    var st0 := Initial(c, ids, keys);
    var log := History(c, st0, steps);
    if log[i].event.Handed? && log[i] == log[j] {
      var m := WipedBetween(c, ids, keys, steps, i, j);
      assert log[m] == Happening(log[i].plane, Wiped(log[i].event.block));
    }
    hide GoodDevice, Initial, Run, History;
  }

  lemma WipedBetween(c: Config, ids: set<PlaneId>, keys: set<Key>, steps: seq<Step>, i: nat, j: nat) returns (m: nat)
    requires GoodDevice(c, ids, keys) && Run(c, Initial(c, ids, keys), steps).At?
    requires i < j < |History(c, Initial(c, ids, keys), steps)|
    requires var log := History(c, Initial(c, ids, keys), steps); log[i].event.Handed? && log[i] == log[j]
    ensures var log := History(c, Initial(c, ids, keys), steps);
            i < m < j && log[m] == Happening(log[i].plane, Wiped(log[i].event.block))
  {
    hide Explains, InitialPlane, Run, EventsIn, PlaneInv;
    var st0 := Initial(c, ids, keys);
    var log, p := History(c, st0, steps), History(c, st0, steps)[i].plane;
    var events := EventsIn(log, p);
    hide History;
    HappensInDevice(c, ids, keys, steps, i);
    PlanesExplained(c, ids, keys, steps, p);
    var i', j' := |EventsIn(log[..i], p)|, |EventsIn(log[..j], p)|;
    EventAt(log, p, i);
    EventAt(log, p, j);
    FewerEvents(log, p, i + 1, j);
    assert events[i'] == events[j'] == log[i].event;
    var m' := WipedInPlane(c, InitialPlane(c), Run(c, st0, steps).st.planes[p], events, i', j');
    m := WhichHappening(log, p, m');
    if m <= i { FewerEvents(log, p, m, i); }
    if j <= m { FewerEvents(log, p, j, m); }
  }

  lemma WipedInPlane(c: Config, pl0: Plane, pl: Plane, log: seq<Event>, i: nat, j: nat) returns (m: nat)
    requires Explains(c, pl0, pl, log) && i < j < |log| && log[i].Handed? && log[i] == log[j]
    ensures i < m < j && log[m] == Wiped(log[i].block)
  {
    assert WritesExplained(c, pl, log);
    NoRepeatWithoutWipe(c.pagesPerBlock, log, i, j);
    m :| i < m < j && log[m] == Wiped(log[i].block);
    hide Explains, WritesExplained;
  }

  /** Whatever happens, happens in a plane of the device. */
  lemma {:induction false} HappensInDevice(c: Config, ids: set<PlaneId>, keys: set<Key>, steps: seq<Step>, i: nat)
    requires GoodDevice(c, ids, keys) && Run(c, Initial(c, ids, keys), steps).At?
    requires i < |History(c, Initial(c, ids, keys), steps)|
    ensures History(c, Initial(c, ids, keys), steps)[i].plane in ids
  {
    hide FtlInv, Contents, RunOps, InitialPlane;
    var st0 := Initial(c, ids, keys);
    InitialInv(c, ids, keys);
    RunIsOps(c, st0, steps);
    PlanesOfLog(c, st0.planes, Trace(c, st0, steps), i);
  }

  lemma {:induction false} PlanesOfLog(c: Config, ps: Planes, ops: seq<Op>, i: nat)
    requires RunOps(c, ps, ops).OpsReached? && i < |RunOps(c, ps, ops).log|
    ensures RunOps(c, ps, ops).log[i].plane in ps
  {
    hide PlaneExec;
    var before := RunOps(c, ps, ops[..|ops| - 1]);
    SamePlanes(c, ps, ops[..|ops| - 1]);
    if i < |before.log| { PlanesOfLog(c, ps, ops[..|ops| - 1], i); }
  }

  lemma {:induction false} SamePlanes(c: Config, ps: Planes, ops: seq<Op>)
    requires RunOps(c, ps, ops).OpsReached?
    ensures RunOps(c, ps, ops).planes.Keys == ps.Keys
  {
    hide PlaneExec;
    if ops != [] { SamePlanes(c, ps, ops[..|ops| - 1]); }
  }
}
