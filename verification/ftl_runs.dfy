/** Whole runs of the flash translation layer, from its initial state. */
module FtlRuns {
  import opened FlashTypes
  import opened PlaneModel
  import opened PlaneProofs
  import opened Marks
  import opened DeviceModel
  import opened FtlModel
  import opened FtlProofs
  import opened FtlSteps
  import opened GcCycle
  import opened InitialPlanes

  // ----- the initial state -----

  /** The device the constructors build, with an empty mapping entry for every key. */
  ghost function Initial(c: Config, ids: set<PlaneId>, keys: set<Key>): Ftl
    requires GoodConfig(c) && 3 * c.streams <= c.blocksPerPlane
  {
    Ftl(map p | p in ids :: InitialPlane(c), map k | k in keys :: Entry(None, {}), {}, map[], map[])
  }

  ghost predicate GoodDevice(c: Config, ids: set<PlaneId>, keys: set<Key>) {
    && GoodConfig(c) && 3 * c.streams <= c.blocksPerPlane
    && (forall s: nat, l: nat :: s < c.streams ==> c.home(s, l) in ids)
    && (forall k :: k in keys ==> k.stream < c.streams)
  }

  lemma InitialInv(c: Config, ids: set<PlaneId>, keys: set<Key>)
    requires GoodDevice(c, ids, keys)
    ensures FtlInv(c, Initial(c, ids, keys)) && Contents(Initial(c, ids, keys)) == map[]
  {
    hide PlaneInv, InitialPlane;
    InitialPlaneInv(c);
    var st := Initial(c, ids, keys);
    InitialDeviceOk(c, ids, keys);
    NothingMapped(c, st);
    hide DeviceOk, MapOk, CountsOk, ImageOf, Initial;
  }

  lemma InitialDeviceOk(c: Config, ids: set<PlaneId>, keys: set<Key>)
    requires GoodDevice(c, ids, keys) && PlaneInv(c, InitialPlane(c))
    ensures DeviceOk(c, Initial(c, ids, keys).planes)
  {
    hide PlaneInv, InitialPlane;
    forall p ensures PlaneAt(c, Initial(c, ids, keys).planes, p) {}
  }

  /** With nothing written and nothing mapped there is nothing to disagree. */
  lemma NothingMapped(c: Config, st: Ftl)
    requires forall p :: p in st.planes ==>
               st.planes[p].valid == 0 && forall i :: 0 <= i < |st.planes[p].blocks| ==>
                 st.planes[p].blocks[i].written == 0
    requires forall k :: k in st.table ==> st.table[k].addr == None && k.stream < c.streams
    requires st.store == map[]
    ensures MapOk(c, st) && CountsOk(st) && Contents(st) == map[]
  {
    forall p | p in st.planes ensures MappedInto(st.table, p) == {} {}
  }

  // ----- runs -----

  datatype Step =
    | WriteStep(key: Key, data: Image)
    | ReadStep(key: Key, sectors: set<nat>)
    | GcStep(key: Key, plane: PlaneId, sectors: set<nat>)
    | EraseStep(plane: PlaneId, block: nat)
    | MarkStep(plane: PlaneId, block: nat, mark: Mark)
    | BarrierStep(plane: PlaneId, block: nat)
    | LockStep(key: Key)
    | UnlockStep(key: Key)

  ghost function Exec(c: Config, st: Ftl, step: Step): Outcome {
    match step
    case WriteStep(k, data) => UserWrite(c, st, k, data)
    case ReadStep(k, sectors) => UserRead(c, st, k, sectors)
    case GcStep(k, p, sectors) => GcWrite(c, st, k, p, sectors)
    case EraseStep(p, b) => EraseBlock(c, st, p, b)
    case MarkStep(p, b, m) => MarkBlock(st, p, b, m)
    case BarrierStep(p, b) => if HasBlock(st.planes, p, b) then SetBarrier(st, p, b) else Failed(AddressOutOfDevice)
    case LockStep(k) => LockKey(st, k)
    case UnlockStep(k) => UnlockKey(st, k)
  }

  /** What the driver of the collector owes: it relocates inside the device, and erases only
      fully invalidated blocks. */
  ghost predicate Allowed(c: Config, st: Ftl, step: Step) {
    match step
    case GcStep(_, p, _) => p in st.planes
    case EraseStep(p, b) => p in st.planes && FullyInvalid(c, st.planes[p], b)
    case _ => true
  }

  /** The meaning of a completed step on the abstract disk. */
  ghost function Effect(d: Disk, step: Step): Disk {
    match step
    case WriteStep(k, data) => DiskWrite(d, k, data)
    case ReadStep(k, sectors) => if k in d then d else DiskCreate(d, k, sectors)
    case GcStep(k, _, sectors) => DiskPad(d, k, sectors)
    case _ => d
  }

  /** A barrier that completes locks exactly the logical pages mapped into the block and changes
      nothing else; one that fails found a logical page locked already. */
  lemma BarrierRefines(c: Config, st: Ftl, p: PlaneId, b: nat) returns (st': Ftl)
    requires FtlInv(c, st) && HasBlock(st.planes, p, b)
    ensures SetBarrier(st, p, b) in {Done(st'), Failed(AlreadyLocked)}
    ensures st' == st.(locked := st.locked + KeysInBlock(st, p, b, st.planes[p].blocks[b].written))
    ensures FtlInv(c, st') && Contents(st') == Contents(st)
  {
    var keys := KeysInBlock(st, p, b, st.planes[p].blocks[b].written);
    BarrierIsExact(c, st, p, b, st.planes[p].blocks[b].written);
    LocksDoNotMatter(c, st, st.locked + keys);
    st' := st.(locked := st.locked + keys);
    hide FtlInv, Contents, KeysInBlock, BarrierUpTo;
  }

  /** Every completed step keeps the invariant and acts on the abstract disk as `Effect`. */
  lemma StepRefines(c: Config, st: Ftl, step: Step)
    requires FtlInv(c, st) && Allowed(c, st, step) && Exec(c, st, step).Done?
    ensures FtlInv(c, Exec(c, st, step).st)
    ensures Contents(Exec(c, st, step).st) == Effect(Contents(st), step)
    ensures Exec(c, st, step).st.planes.Keys == st.planes.Keys
    ensures Exec(c, st, step).st.table.Keys == st.table.Keys
  {
    match step
    case WriteStep(k, data) =>
      WriteNeedsMapping(c, st, k, data);
      WritePageFails(c, st, k, data);
      var st' := WritePageRefines(c, st, k, data);
      hide FtlInv, Contents, WritePage;
    case ReadStep(k, sectors) =>
      UserReadFails(c, st, k, sectors);
      var st' := UserReadRefines(c, st, k, sectors);
      hide FtlInv, UserRead;
    case GcStep(k, p, sectors) =>
      GcWriteFails(c, st, k, p, sectors);
      var st' := GcWriteRefines(c, st, k, p, sectors);
      hide FtlInv, Contents, GcWrite;
    case EraseStep(p, b) =>
      var st' := EraseBlockRefines(c, st, p, b);
      hide FtlInv, Contents, EraseBlock;
    case MarkStep(p, b, m) =>
      var st' := MarkKeepsFtl(c, st, p, b, m);
      hide FtlInv, Contents;
    case BarrierStep(p, b) =>
      var st' := BarrierRefines(c, st, p, b);
      hide FtlInv, Contents, SetBarrier;
    case LockStep(k) => LocksDoNotMatter(c, st, st.locked + {k});
    case UnlockStep(k) => LocksDoNotMatter(c, st, st.locked - {k});
  }

  /** In no reachable state does a consistency check fire: a step that fails does so because
      the pool is empty or the request itself is malformed. In particular a barrier never finds
      the mapping inconsistent with what the flash recorded. */
  lemma ChecksNeverFire(c: Config, st: Ftl, step: Step)
    requires FtlInv(c, st) && Allowed(c, st, step) && Exec(c, st, step).Failed?
    ensures Exec(c, st, step).error !in {InconsistentCounters, OutOfFreePages, WrongStream, MappingMismatch}
  {
    match step
    case WriteStep(k, data) =>
      if k in st.table && st.table[k].addr.Some? { WritePageFails(c, st, k, data); }
      hide FtlInv;
    case ReadStep(k, sectors) =>
      UserReadFails(c, st, k, sectors);
      if k in st.table && st.table[k].addr == None { CreateForReadFails(c, st, k, sectors); }
      hide FtlInv, CreateForRead;
    case GcStep(k, p, sectors) =>
      if k in st.table && st.table[k].addr.Some? && st.table[k].bitmap <= sectors {
        GcWriteFails(c, st, k, p, sectors);
        var prev := st.table[k].bitmap;
        SetCovers(prev, sectors);
        SamePagesRefl(st.planes);
        assert EntryOk(c, st, k);
        hide FtlInv, Relocate, CanAllocateAt, SamePages;
        RelocateFails(c, st, st.planes, k, Gc, p, sectors + prev, ImageOf(st, k));
      } else if k in st.table && st.table[k].addr.Some? {
        SetCovers(st.table[k].bitmap, sectors);
        hide FtlInv, Relocate;
      }
    case EraseStep(p, b) =>
      var st' := EraseBlockRefines(c, st, p, b);
      hide FtlInv, EraseBlock;
    case MarkStep(p, b, m) => hide FtlInv;
    case BarrierStep(p, b) =>
      if HasBlock(st.planes, p, b) { var st' := BarrierRefines(c, st, p, b); }
      hide FtlInv, SetBarrier;
    case LockStep(k) => hide FtlInv;
    case UnlockStep(k) => hide FtlInv;
  }

  /** The state after a run and the completed steps, in order; refused writes leave no trace.
      A run stops at the first failing or disallowed step. */
  datatype RunResult = Halted | At(st: Ftl, log: seq<Step>)

  ghost function Run(c: Config, st: Ftl, steps: seq<Step>): RunResult {
    if steps == [] then At(st, [])
    else
      var last := steps[|steps| - 1];
      match Run(c, st, steps[..|steps| - 1])
      case Halted => Halted
      case At(st1, log) =>
        if !Allowed(c, st1, last) then Halted
        else
          match Exec(c, st1, last)
          case Failed(_) => Halted
          case Refused => At(st1, log)
          case Done(st2) => At(st2, log + [last])
  }

  /** A run in which every step completes, and one more. */
  lemma {:induction false} RunNext(c: Config, st: Ftl, steps: seq<Step>, step: Step, st1: Ftl, st2: Ftl)
    requires Run(c, st, steps) == At(st1, steps) && Allowed(c, st1, step) && Exec(c, st1, step) == Done(st2)
    ensures Run(c, st, steps + [step]) == At(st2, steps + [step])
  {
    hide Exec, Allowed;
    assert (steps + [step])[..|steps + [step]| - 1] == steps;
  }

  lemma {:induction false} RunNothing(c: Config, st: Ftl)
    ensures Run(c, st, []) == At(st, [])
  {
  }

  /** The plain map a log of completed steps amounts to. */
  ghost function Replay(d: Disk, log: seq<Step>): Disk {
    if log == [] then d else Effect(Replay(d, log[..|log| - 1]), log[|log| - 1])
  }

  /** Refinement over every run: whatever the sequence of user writes, reads, relocations,
      erases, counter and barrier steps, reading through the mapping finds exactly what the
      plain map holds, and the invariant holds throughout. */
  lemma {:induction false} RunRefines(c: Config, st: Ftl, steps: seq<Step>)
    requires FtlInv(c, st) && Run(c, st, steps).At?
    ensures var r := Run(c, st, steps);
            FtlInv(c, r.st) && Contents(r.st) == Replay(Contents(st), r.log)
            && r.st.planes.Keys == st.planes.Keys && r.st.table.Keys == st.table.Keys
  {
    if steps != [] {
      var last := steps[|steps| - 1];
      var before := Run(c, st, steps[..|steps| - 1]);
      RunRefines(c, st, steps[..|steps| - 1]);
      hide FtlInv, Contents, Allowed;
      if Exec(c, before.st, last).Done? {
        StepRefines(c, before.st, last);
        assert (before.log + [last])[..|before.log|] == before.log;
        hide Exec;
      }
    }
  }

  /** From the initial device, the abstract disk is the replay of the log from nothing, and the
      bitmap of each mapped page lists exactly the sectors the log gave it. */
  lemma {:induction false} DeviceRefinesMap(c: Config, ids: set<PlaneId>, keys: set<Key>, steps: seq<Step>, k: Key)
    requires GoodDevice(c, ids, keys) && Run(c, Initial(c, ids, keys), steps).At?
    ensures var r := Run(c, Initial(c, ids, keys), steps); var disk := Replay(map[], r.log);
            && FtlInv(c, r.st)
            && (k in disk <==> k in r.st.table && r.st.table[k].addr.Some?)
            && (k in disk ==> r.st.table[k].bitmap == disk[k].Keys)
            && (k in disk ==> forall s :: s in disk[k] ==>
                disk[k][s] == ReadCell(r.st.store, r.st.table[k].addr.value, s))
  {
    InitialInv(c, ids, keys);
    RunRefines(c, Initial(c, ids, keys), steps);
    hide FtlInv, Replay, Run, Initial;
  }

  /** As written a page must be read before it is ever written: over every run, an admitted write
      leaves the device exactly if no completed step has given the page an entry. */
  lemma {:induction false} WriteBeforeReadFails(c: Config, ids: set<PlaneId>, keys: set<Key>, steps: seq<Step>,
                                                k: Key, data: Image)
    requires GoodDevice(c, ids, keys) && k in keys && Run(c, Initial(c, ids, keys), steps).At?
    ensures var r := Run(c, Initial(c, ids, keys), steps);
            Exec(c, r.st, WriteStep(k, data)) == Failed(AddressOutOfDevice)
            <==> k !in Replay(map[], r.log) && !Stopped(c, r.st.planes, c.home(k.stream, k.lpa))
  {
    InitialInv(c, ids, keys);
    RunRefines(c, Initial(c, ids, keys), steps);
    DeviceRefinesMap(c, ids, keys, steps, k);
    WriteNeedsMapping(c, Run(c, Initial(c, ids, keys), steps).st, k, data);
    hide FtlInv, Contents, Replay, Run, WritePage, Stopped;
  }

  /** In particular the first write of any page of a fresh device. */
  lemma FirstWriteFails(c: Config, ids: set<PlaneId>, keys: set<Key>, k: Key, data: Image)
    requires GoodDevice(c, ids, keys) && k in keys
    ensures WritePage(c, Initial(c, ids, keys), k, data) == Failed(AddressOutOfDevice)
  {
    InitialInv(c, ids, keys);
    WriteNeedsMapping(c, Initial(c, ids, keys), k, data);
    hide FtlInv, WritePage;
  }

  // ----- home planes -----

  ghost predicate AtHome(c: Config, st: Ftl) {
    forall k :: k in st.table && st.table[k].addr.Some? ==> st.table[k].addr.value.plane == c.home(k.stream, k.lpa)
  }

  /** The collector relocates into the plane the page is in. */
  ghost predicate StaysInPlane(c: Config, step: Step) {
    step.GcStep? ==> step.plane == c.home(step.key.stream, step.key.lpa)
  }

  lemma StepStaysHome(c: Config, st: Ftl, step: Step)
    requires FtlInv(c, st) && Allowed(c, st, step) && Exec(c, st, step).Done?
    requires AtHome(c, st) && StaysInPlane(c, step)
    ensures AtHome(c, Exec(c, st, step).st)
  {
    hide FtlInv, WritePage, UserRead, GcWrite, EraseBlock, Contents;
    match step
    case WriteStep(k, data) =>
      WriteNeedsMapping(c, st, k, data);
      WritePageFails(c, st, k, data);
      var st' := WritePageRefines(c, st, k, data);
    case ReadStep(k, sectors) =>
      UserReadFails(c, st, k, sectors);
      var st' := UserReadRefines(c, st, k, sectors);
    case GcStep(k, p, sectors) =>
      GcWriteFails(c, st, k, p, sectors);
      var st' := GcWriteRefines(c, st, k, p, sectors);
    case EraseStep(p, b) =>
      var st' := EraseBlockRefines(c, st, p, b);
    case MarkStep(p, b, m) =>
      var st' := MarkKeepsFtl(c, st, p, b, m);
    case BarrierStep(p, b) =>
      var st' := BarrierRefines(c, st, p, b);
      hide SetBarrier;
    case LockStep(k) =>
    case UnlockStep(k) =>
  }

  /** Over any run whose relocations stay in their plane, every mapped page is in the plane its
      stream stripes it to. */
  lemma {:induction false} MappedPagesStayHome(c: Config, st: Ftl, steps: seq<Step>)
    requires FtlInv(c, st) && AtHome(c, st) && Run(c, st, steps).At?
    requires forall i :: 0 <= i < |steps| ==> StaysInPlane(c, steps[i])
    ensures AtHome(c, Run(c, st, steps).st)
  {
    if steps != [] {
      var last := steps[|steps| - 1];
      var before := Run(c, st, steps[..|steps| - 1]);
      MappedPagesStayHome(c, st, steps[..|steps| - 1]);
      RunRefines(c, st, steps[..|steps| - 1]);
      hide FtlInv, Contents, Allowed, AtHome;
      if Exec(c, before.st, last).Done? {
        StepStaysHome(c, before.st, last);
        hide Exec;
      }
    }
  }
}
