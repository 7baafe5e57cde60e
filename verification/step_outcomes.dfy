/** Exactly when each step of the translation layer completes, and with which error it fails. */
module StepOutcomes {
  import opened FlashTypes
  import opened PlaneModel
  import opened PlaneProofs
  import opened Marks
  import opened DeviceModel
  import opened FtlModel
  import opened FtlProofs
  import opened FtlSteps
  import opened GcCycle
  import opened FtlRuns

  /** The plane has a free block, or the open block of the slot has more than one page left. */
  ghost predicate PageLeft(c: Config, ps: Planes, slot: Slot, p: PlaneId) {
    && p in ps && slot in ps[p].open && ps[p].open[slot] < |ps[p].blocks|
    && (ps[p].pool != [] || ps[p].blocks[ps[p].open[slot]].written + 1 < c.pagesPerBlock)
  }

  lemma PageLeftDecides(c: Config, ps: Planes, slot: Slot, p: PlaneId)
    requires DeviceOk(c, ps) && slot.stream < c.streams && p in ps
    ensures CanAllocateAt(c, ps, slot, p) <==> PageLeft(c, ps, slot, p)
  {
    assert PlaneAt(c, ps, p);
    SlotIsReady(c, ps[p], slot);
    hide PlaneInv;
  }

  /** What a step comes to: completion, refusal or an error. */
  datatype Verdict = Completes | IsRefused | Errs(error: FtlError)

  ghost function VerdictOf(o: Outcome): Verdict {
    match o
    case Done(_) => Completes
    case Refused => IsRefused
    case Failed(e) => Errs(e)
  }

  /** User write: the missing entry comes first, then the refusal by a plane short of free blocks,
      then the unguarded NO_VALUE, then the plane without a page to give. */
  lemma WriteOutcome(c: Config, st: Ftl, k: Key, data: Image)
    requires FtlInv(c, st)
    ensures var home := c.home(k.stream, k.lpa);
            VerdictOf(Exec(c, st, WriteStep(k, data)))
            == if k !in st.table then Errs(EntryNotValid)
               else if home in st.planes && |st.planes[home].pool| < c.maxGc then IsRefused
               else if st.table[k].addr == None then Errs(AddressOutOfDevice)
               else if PageLeft(c, st.planes, Slot(Data, k.stream), home) then Completes
               else Errs(EmptyPool)
  {
    if k in st.table && st.table[k].addr.Some? {
      assert EntryOk(c, st, k);
      PageLeftDecides(c, st.planes, Slot(Data, k.stream), c.home(k.stream, k.lpa));
      WritePageFails(c, st, k, data);
    }
    hide FtlInv, Relocate, CanAllocateAt, PageLeft, MarkAt;
  }

  /** User read: a missing entry, or a page to create in a plane without one to give. */
  lemma ReadOutcome(c: Config, st: Ftl, k: Key, sectors: set<nat>)
    requires FtlInv(c, st)
    ensures VerdictOf(Exec(c, st, ReadStep(k, sectors)))
            == if k !in st.table then Errs(EntryNotValid)
               else if st.table[k].addr.Some? || PageLeft(c, st.planes, Slot(Data, k.stream), c.home(k.stream, k.lpa))
               then Completes
               else Errs(EmptyPool)
  {
    if k in st.table {
      assert EntryOk(c, st, k);
      PageLeftDecides(c, st.planes, Slot(Data, k.stream), c.home(k.stream, k.lpa));
      UserReadFails(c, st, k, sectors);
      if st.table[k].addr == None && !HomeReady(c, st, k) { CreateForReadFails(c, st, k, sectors); }
    }
    hide FtlInv, CreateForRead, CanAllocateAt, PageLeft, MarkAt;
  }

  /** Write of garbage collection: a missing entry, an unmapped page or a bitmap that leaves a written
      sector out, or a plane without a page to give. */
  lemma GcOutcome(c: Config, st: Ftl, k: Key, p: PlaneId, sectors: set<nat>)
    requires FtlInv(c, st) && p in st.planes
    ensures VerdictOf(Exec(c, st, GcStep(k, p, sectors)))
            == if k !in st.table then Errs(EntryNotValid)
               else if st.table[k].addr == None || !(st.table[k].bitmap <= sectors) then Errs(BadGcWrite)
               else if PageLeft(c, st.planes, Slot(Gc, k.stream), p) then Completes
               else Errs(EmptyPool)
  {
    if k in st.table && st.table[k].addr.Some? {
      assert EntryOk(c, st, k);
      PageLeftDecides(c, st.planes, Slot(Gc, k.stream), p);
      SetCovers(st.table[k].bitmap, sectors);
      GcWriteFails(c, st, k, p, sectors);
      if st.table[k].bitmap <= sectors && !CanAllocateAt(c, st.planes, Slot(Gc, k.stream), p) {
        SamePagesRefl(st.planes);
        hide CountsOk, Relocate, CanAllocateAt, SamePages, PageLeft;
        RelocateFails(c, st, st.planes, k, Gc, p, sectors + st.table[k].bitmap, ImageOf(st, k));
      }
    }
    hide FtlInv, Relocate, CanAllocateAt, PageLeft;
  }

  /** A block barrier: a block that does not exist, or a page in it locked already; otherwise exactly
      the pages mapped into the block become locked. */
  lemma BarrierOutcome(c: Config, st: Ftl, p: PlaneId, b: nat)
    requires FtlInv(c, st)
    ensures var o := Exec(c, st, BarrierStep(p, b));
            var keys := set k | k in st.table && st.table[k].addr.Some? && st.table[k].addr.value.plane == p
                                && st.table[k].addr.value.block == b;
            if p !in st.planes || b >= |st.planes[p].blocks| then o == Failed(AddressOutOfDevice)
            else if exists k :: k in keys && k in st.locked then o == Failed(AlreadyLocked)
            else o == Done(st.(locked := st.locked + keys))
  {
    if HasBlock(st.planes, p, b) {
      var n := st.planes[p].blocks[b].written;
      BarrierIsExact(c, st, p, b, n);
      forall k | k in st.table && st.table[k].addr.Some? ensures Live(st.planes, st.table[k].addr.value) {
        assert EntryOk(c, st, k);
      }
      assert KeysInBlock(st, p, b, n)
             == set k | k in st.table && st.table[k].addr.Some? && st.table[k].addr.value.plane == p
                        && st.table[k].addr.value.block == b;
    }
    hide FtlInv, BarrierUpTo;
  }

  /** The states differ in the lock of `k` alone, which is now `locked`. */
  ghost predicate LocksBut(st: Ftl, k: Key, locked: bool, st': Ftl) {
    && st' == st.(locked := st'.locked)
    && (k in st'.locked <==> locked)
    && forall x :: x != k ==> (x in st'.locked <==> x in st.locked)
  }

  /** The single barrier: locking and unlocking one page, each an error when there is nothing to do,
      and nothing but that lock changes. A lock followed by the unlock, or the reverse, is undone. */
  lemma LockOutcome(c: Config, st: Ftl, k: Key)
    ensures var o := Exec(c, st, LockStep(k));
            if k in st.locked then o == Failed(AlreadyLocked) else o.Done? && LocksBut(st, k, true, o.st)
    ensures var o := Exec(c, st, UnlockStep(k));
            if k !in st.locked then o == Failed(NotLocked) else o.Done? && LocksBut(st, k, false, o.st)
    ensures k !in st.locked ==> Exec(c, Exec(c, st, LockStep(k)).st, UnlockStep(k)) == Done(st)
    ensures k in st.locked ==> Exec(c, Exec(c, st, UnlockStep(k)).st, LockStep(k)) == Done(st)
  {
    if k in st.locked {
      assert st.locked - {k} + {k} == st.locked;
    } else {
      assert st.locked + {k} - {k} == st.locked;
    }
  }

  /** Marks fail only outside the device. */
  lemma MarkOutcome(c: Config, st: Ftl, p: PlaneId, b: nat, m: Mark)
    ensures VerdictOf(Exec(c, st, MarkStep(p, b, m)))
            == if p in st.planes && b < |st.planes[p].blocks| then Completes else Errs(AddressOutOfDevice)
  {
    hide MarkedIn;
  }

  /** The intended erase fails only outside the device: its check passes on every block, so the
      collector has to ask for fully invalidated ones. */
  lemma EraseOutcome(c: Config, st: Ftl, p: PlaneId, b: nat)
    requires FtlInv(c, st)
    ensures VerdictOf(Exec(c, st, EraseStep(p, b)))
            == if p in st.planes && b < |st.planes[p].blocks| then Completes else Errs(AddressOutOfDevice)
  {
    if HasBlock(st.planes, p, b) {
      assert PlaneAt(c, st.planes, p);
      EraseKeepsExactly(c, st.planes[p], b);
    }
    hide FtlInv, PlaneInv, Erase;
  }

  /** An erase takes exactly the block's pages out of what is stored and out of the owner records. */
  lemma EraseForgets(c: Config, st: Ftl, p: PlaneId, b: nat, a: PageAddr)
    requires EraseBlock(c, st, p, b).Done?
    ensures var st', erased := EraseBlock(c, st, p, b).st, a.plane == p && a.block == b;
            && (a in st'.store <==> a in st.store && !erased) && (a in st'.store ==> st'.store[a] == st.store[a])
            && (a in st'.owner <==> a in st.owner && !erased) && (a in st'.owner ==> st'.owner[a] == st.owner[a])
  {
    hide EraseAt;
  }
}
