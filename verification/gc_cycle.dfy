/** One garbage-collection cycle on a full victim block: lock the logical pages in it, move each
    valid page inside the plane and unlock it, erase the block. */
module GcCycle {
  import opened FlashTypes
  import opened FreePool
  import opened PlaneModel
  import opened PlaneProofs
  import opened DeviceModel
  import opened FtlModel
  import opened FtlProofs
  import opened FtlSteps

  // ----- the steps -----

  /** The logical page the flash recorded with a physical page of block `b`; the stream is the
      block's. */
  ghost function KeyAt(st: Ftl, p: PlaneId, b: nat, page: nat): Key
    requires HasBlock(st.planes, p, b)
  {
    var a := PageAddr(p, b, page);
    Key(st.planes[p].blocks[b].stream, if a in st.owner then st.owner[a].lpa else 0)
  }

  ghost predicate ValidPage(st: Ftl, p: PlaneId, b: nat, page: nat)
    requires HasBlock(st.planes, p, b)
  {
    page !in st.planes[p].blocks[b].invalid
  }

  /** SetBarrierForPhysicalBlock after its first `n` pages. */
  ghost function BarrierUpTo(st: Ftl, p: PlaneId, b: nat, n: nat): Outcome
    requires HasBlock(st.planes, p, b)
  {
    if n == 0 then Done(st)
    else
      match BarrierUpTo(st, p, b, n - 1)
      case Failed(e) => Failed(e)
      case Refused => Refused
      case Done(st1) =>
        if !ValidPage(st, p, b, n - 1) then Done(st1)
        else
          var k := KeyAt(st, p, b, n - 1);
          if k !in st1.table then Failed(EntryNotValid)
          else if st1.table[k].addr != Some(PageAddr(p, b, n - 1)) then Failed(MappingMismatch)
          else LockKey(st1, k)
  }

  ghost function SetBarrier(st: Ftl, p: PlaneId, b: nat): Outcome
    requires HasBlock(st.planes, p, b)
  {
    BarrierUpTo(st, p, b, st.planes[p].blocks[b].written)
  }

  /** Move page `page` if it is valid: a GC write that carries the page's own bitmap, then the
      release of its barrier. */
  ghost function MovePage(c: Config, st: Ftl, p: PlaneId, b: nat, page: nat): Outcome {
    if !HasBlock(st.planes, p, b) then Failed(AddressOutOfDevice)
    else if !ValidPage(st, p, b, page) then Done(st)
    else
      var k := KeyAt(st, p, b, page);
      if k !in st.table then Failed(EntryNotValid)
      else
        match GcWrite(c, st, k, p, st.table[k].bitmap)
        case Failed(e) => Failed(e)
        case Refused => Refused
        case Done(st1) => UnlockKey(st1, k)
  }

  ghost function MoveUpTo(c: Config, st: Ftl, p: PlaneId, b: nat, n: nat): Outcome {
    if n == 0 then Done(st)
    else
      match MoveUpTo(c, st, p, b, n - 1)
      case Failed(e) => Failed(e)
      case Refused => Refused
      case Done(st1) => MovePage(c, st1, p, b, n - 1)
  }

  ghost function Collect(c: Config, st: Ftl, p: PlaneId, b: nat): Outcome {
    if !HasBlock(st.planes, p, b) then Failed(AddressOutOfDevice)
    else
      match SetBarrier(st, p, b)
      case Failed(e) => Failed(e)
      case Refused => Refused
      case Done(st1) =>
        match MoveUpTo(c, st1, p, b, c.pagesPerBlock)
        case Failed(e) => Failed(e)
        case Refused => Refused
        case Done(st2) => EraseBlock(c, st2, p, b)
  }

  // ----- the barrier -----

  /** The logical pages mapped to the first `n` pages of block `b`. */
  ghost function KeysInBlock(st: Ftl, p: PlaneId, b: nat, n: nat): set<Key> {
    set k | k in st.table && st.table[k].addr.Some?
            && st.table[k].addr.value.plane == p && st.table[k].addr.value.block == b && st.table[k].addr.value.page < n
  }

  /** A valid page of a programmed range belongs to exactly the key its owner record names. */
  lemma ValidPageKey(c: Config, st: Ftl, p: PlaneId, b: nat, page: nat)
    requires FtlInv(c, st) && HasBlock(st.planes, p, b) && page < st.planes[p].blocks[b].written
    requires ValidPage(st, p, b, page)
    ensures var k := KeyAt(st, p, b, page);
            k in st.table && k.stream < c.streams && st.table[k].addr == Some(PageAddr(p, b, page))
  {
    var a := PageAddr(p, b, page);
    assert Live(st.planes, a);
    assert PageOk(st, a);
    assert EntryOk(c, st, st.owner[a]);
  }

  lemma OnlyKeyOnPage(c: Config, st: Ftl, p: PlaneId, b: nat, page: nat, k: Key)
    requires FtlInv(c, st) && HasBlock(st.planes, p, b)
    requires k in st.table && st.table[k].addr == Some(PageAddr(p, b, page))
    ensures ValidPage(st, p, b, page) && k == KeyAt(st, p, b, page)
  {
    assert EntryOk(c, st, k);
  }

  /** The keys mapped to page `n` are none, or the one its owner record names. */
  lemma KeyOnPage(c: Config, st: Ftl, p: PlaneId, b: nat, n: nat, k: Key)
    requires FtlInv(c, st) && HasBlock(st.planes, p, b) && n < st.planes[p].blocks[b].written
    ensures (k in st.table && st.table[k].addr == Some(PageAddr(p, b, n)))
            <==> (ValidPage(st, p, b, n) && k == KeyAt(st, p, b, n))
  {
    if k in st.table && st.table[k].addr == Some(PageAddr(p, b, n)) {
      OnlyKeyOnPage(c, st, p, b, n, k);
    } else if ValidPage(st, p, b, n) {
      ValidPageKey(c, st, p, b, n);
    }
  }

  lemma NextKeyInBlock(c: Config, st: Ftl, p: PlaneId, b: nat, n: nat)
    requires FtlInv(c, st) && HasBlock(st.planes, p, b) && n < st.planes[p].blocks[b].written
    ensures KeysInBlock(st, p, b, n + 1)
            == if ValidPage(st, p, b, n) then KeysInBlock(st, p, b, n) + {KeyAt(st, p, b, n)}
              else KeysInBlock(st, p, b, n)
    ensures ValidPage(st, p, b, n) ==> KeyAt(st, p, b, n) !in KeysInBlock(st, p, b, n)
  {
    hide FtlInv, KeyAt, ValidPage;
    forall k
      ensures (k in st.table && st.table[k].addr == Some(PageAddr(p, b, n)))
              <==> (ValidPage(st, p, b, n) && k == KeyAt(st, p, b, n))
    {
      KeyOnPage(c, st, p, b, n, k);
    }
  }

  /** Locking a whole set of logical pages: refused when one of them is locked already. */
  ghost function LockAll(st: Ftl, keys: set<Key>): Outcome {
    if keys !! st.locked then Done(st.(locked := st.locked + keys)) else Failed(AlreadyLocked)
  }

  lemma LockMore(st: Ftl, keys: set<Key>, k: Key)
    requires k !in keys
    ensures LockAll(st, keys + {k})
            == match LockAll(st, keys) case Done(st1) => LockKey(st1, k) case other => other
    ensures LockAll(st, keys).Done? ==> LockAll(st, keys).st.table == st.table
  {
    assert st.locked + keys + {k} == st.locked + (keys + {k});
  }

  /** The barrier over the first `n` pages succeeds exactly when none of the logical pages in
      them is locked, never finds an inconsistent mapping, and then locks exactly them. */
  lemma {:induction false} BarrierIsExact(c: Config, st: Ftl, p: PlaneId, b: nat, n: nat)
    requires FtlInv(c, st) && HasBlock(st.planes, p, b) && n <= st.planes[p].blocks[b].written
    ensures BarrierUpTo(st, p, b, n) == LockAll(st, KeysInBlock(st, p, b, n))
  {
    if n == 0 {
      assert KeysInBlock(st, p, b, 0) == {};
      assert st.locked + {} == st.locked;
    } else {
      BarrierIsExact(c, st, p, b, n - 1);
      NextKeyInBlock(c, st, p, b, n - 1);
      if ValidPage(st, p, b, n - 1) { ValidPageKey(c, st, p, b, n - 1); }
      hide FtlInv, KeysInBlock, KeyAt, ValidPage, LockAll, LockKey;
      if ValidPage(st, p, b, n - 1) {
        LockMore(st, KeysInBlock(st, p, b, n - 1), KeyAt(st, p, b, n - 1));
      }
    }
  }

  /** The barrier as written: the driver's reverse lookup is a stub that answers the page number. */
  ghost function StubBarrierUpTo(st: Ftl, p: PlaneId, b: nat, n: nat): Outcome
    requires HasBlock(st.planes, p, b)
  {
    if n == 0 then Done(st)
    else
      match StubBarrierUpTo(st, p, b, n - 1)
      case Failed(e) => Failed(e)
      case Refused => Refused
      case Done(st1) =>
        if !ValidPage(st, p, b, n - 1) then Done(st1)
        else
          var k := Key(st.planes[p].blocks[b].stream, n - 1);
          if k !in st1.table then Failed(EntryNotValid)
          else if st1.table[k].addr != Some(PageAddr(p, b, n - 1)) then Failed(MappingMismatch)
          else LockKey(st1, k)
  }

  /** The stub tells the truth about the first `n` pages: each valid one belongs to the logical
      page of the same number. */
  ghost predicate StubIsRight(st: Ftl, p: PlaneId, b: nat, n: nat)
    requires HasBlock(st.planes, p, b)
  {
    forall x: nat :: x < n && ValidPage(st, p, b, x) ==> KeyAt(st, p, b, x).lpa == x
  }

  /** So as written the barrier over a block of unlocked pages works only where every valid page
      happens to belong to the logical page of its own number, and otherwise stops the simulator
      with a missing or inconsistent mapping. */
  lemma {:induction false} StubBarrierWorksExactly(c: Config, st: Ftl, p: PlaneId, b: nat, n: nat)
    requires FtlInv(c, st) && HasBlock(st.planes, p, b) && n <= st.planes[p].blocks[b].written
    requires KeysInBlock(st, p, b, n) !! st.locked
    ensures StubIsRight(st, p, b, n) ==>
              StubBarrierUpTo(st, p, b, n) == BarrierUpTo(st, p, b, n) && BarrierUpTo(st, p, b, n).Done?
    ensures !StubIsRight(st, p, b, n) ==>
              StubBarrierUpTo(st, p, b, n).Failed?
                && StubBarrierUpTo(st, p, b, n).error in {EntryNotValid, MappingMismatch}
  {
    BarrierIsExact(c, st, p, b, n);
    if n > 0 {
      NextKeyInBlock(c, st, p, b, n - 1);
      StubBarrierWorksExactly(c, st, p, b, n - 1);
      BarrierIsExact(c, st, p, b, n - 1);
      var k := Key(st.planes[p].blocks[b].stream, n - 1);
      KeyOnPage(c, st, p, b, n - 1, k);
      assert StubIsRight(st, p, b, n) <==>
        StubIsRight(st, p, b, n - 1) && (ValidPage(st, p, b, n - 1) ==> KeyAt(st, p, b, n - 1) == k);
      hide FtlInv, KeysInBlock, KeyAt, ValidPage, StubIsRight;
    }
  }

  // ----- room in the plane -----

  /** Pages the collector can still write for stream `s` before it needs an erase, shifted by
      one block. */
  ghost function Room(c: Config, pl: Plane, slot: Slot): int
    requires AllocReady(pl, slot)
  {
    c.pagesPerBlock * |pl.pool| - pl.blocks[pl.open[slot]].written
  }

  lemma RoomDecides(c: Config, pl: Plane, slot: Slot)
    requires AllocReady(pl, slot) && pl.blocks[pl.open[slot]].written < c.pagesPerBlock
    ensures CanAllocate(c, pl, slot) <==> Room(c, pl, slot) > 1 - c.pagesPerBlock
  {
    if pl.pool != [] {
      assert c.pagesPerBlock * |pl.pool| >= c.pagesPerBlock * 1;
    }
  }

  lemma RoomShrinks(c: Config, pl: Plane, slot: Slot, pl': Plane, block: nat, page: nat)
    requires AllocReady(pl, slot) && AllocEffect(c, pl, slot, pl', block, page) && AllocReady(pl', slot)
    requires pl.pool != [] ==> pl.pool[0].block != pl.open[slot] && pl.blocks[pl.pool[0].block].written == 0
    ensures Room(c, pl', slot) == Room(c, pl, slot) - 1
  {
    if page + 1 == c.pagesPerBlock {
      assert c.pagesPerBlock * (|pl.pool| - 1) == c.pagesPerBlock * |pl.pool| - c.pagesPerBlock;
    }
  }

  // ----- one move -----

  /** How many of the first `n` pages are not in `invalid`. */
  ghost function ValidBelow(invalid: set<nat>, n: nat): nat {
    if n == 0 then 0 else ValidBelow(invalid, n - 1) + if n - 1 in invalid then 0 else 1
  }

  lemma {:induction false} ValidBelowCount(invalid: set<nat>, n: nat)
    requires forall q :: q in invalid ==> q < n
    ensures ValidBelow(invalid, n) == n - |invalid|
  {
    if n == 0 {
      assert invalid == {};
    } else {
      ValidBelowCount(invalid - {n - 1}, n - 1);
      SameBelow(invalid, invalid - {n - 1}, n - 1);
    }
  }

  lemma {:induction false} SameBelow(x: set<nat>, y: set<nat>, n: nat)
    requires forall q: nat :: q < n ==> (q in x <==> q in y)
    ensures ValidBelow(x, n) == ValidBelow(y, n)
  {
    if n > 0 { SameBelow(x, y, n - 1); }
  }

  lemma {:induction false} ValidBelowMonotone(invalid: set<nat>, n: nat, m: nat)
    requires n <= m
    ensures ValidBelow(invalid, n) <= ValidBelow(invalid, m)
  {
    if n < m { ValidBelowMonotone(invalid, n, m - 1); }
  }

  /** A relocation inside one plane is an invalidation followed by an allocation there. */
  lemma MoveInPlane(c: Config, st: Ftl, k: Key, p: PlaneId, sectors: set<nat>)
    requires k in st.table && st.table[k].addr.Some? && st.table[k].addr.value.plane == p
    requires GcWrite(c, st, k, p, sectors).Done?
    ensures var a, slot := st.table[k].addr.value, Slot(Gc, k.stream);
            var st' := GcWrite(c, st, k, p, sectors).st;
            && HasBlock(st.planes, p, a.block)
            && Invalidate(st.planes[p], k.stream, a.block, a.page).PlaneOkay?
            && var pl1 := Invalidate(st.planes[p], k.stream, a.block, a.page).plane;
            && AllocReady(pl1, slot) && Allocate(c, pl1, slot).Allocated?
            && st'.planes == st.planes[p := Allocate(c, pl1, slot).plane]
            && st'.table[k].addr == Some(PageAddr(p, Allocate(c, pl1, slot).block, Allocate(c, pl1, slot).page))
  {
    hide Invalidate, Allocate, View;
  }

  /** What moving a page out of a full block does to the plane. */
  ghost predicate MoveEffect(c: Config, pl: Plane, slot: Slot, b: nat, page: nat, pl': Plane) {
    && AllocReady(pl, slot) && AllocReady(pl', slot)
    && |pl'.blocks| == |pl.blocks| && b < |pl.blocks|
    && pl'.blocks[b].written == pl.blocks[b].written
    && pl'.blocks[b].stream == pl.blocks[b].stream
    && pl'.blocks[b].invalid == pl.blocks[b].invalid + {page}
    && pl'.free == pl.free - 1
    && Room(c, pl', slot) == Room(c, pl, slot) - 1
  }

  lemma MovePlane(c: Config, pl: Plane, slot: Slot, b: nat, page: nat, pl': Plane)
    requires PlaneInv(c, pl) && slot.stream < c.streams && PlaneInv(c, pl')
    requires b < |pl.blocks| && pl.blocks[b].written == c.pagesPerBlock && LiveIn(pl, b, page)
    requires Invalidate(pl, slot.stream, b, page).PlaneOkay?
    requires var pl1 := Invalidate(pl, slot.stream, b, page).plane;
             AllocReady(pl1, slot) && Allocate(c, pl1, slot).Allocated? && pl' == Allocate(c, pl1, slot).plane
    ensures MoveEffect(c, pl, slot, b, page, pl')
            && Allocate(c, Invalidate(pl, slot.stream, b, page).plane, slot).block != b
  {
    hide PlaneInv;
    var pl1 := Invalidate(pl, slot.stream, b, page).plane;
    SlotIsReady(c, pl, slot);
    SlotIsReady(c, pl', slot);
    assert pl1.blocks[b].written == pl.blocks[b].written;
    AllocateChanges(c, pl1, slot);
    var r := Allocate(c, pl1, slot);
    hide Allocate;
    assert r.block != b && (pl.pool != [] ==> pl.pool[0].block != b);
    RoomShrinks(c, pl1, slot, pl', r.block, r.page);
    assert Room(c, pl1, slot) == Room(c, pl, slot);
  }

  // ----- all moves -----

  ghost predicate FullBlock(c: Config, st: Ftl, p: PlaneId, b: nat) {
    HasBlock(st.planes, p, b) && st.planes[p].blocks[b].written == c.pagesPerBlock
  }

  ghost predicate InVictim(st: Ftl, k: Key, p: PlaneId, b: nat, n: nat) {
    && k in st.table && st.table[k].addr.Some?
    && var a := st.table[k].addr.value; a.plane == p && a.block == b && a.page < n
  }

  /** The mapping after the first `n` pages have been moved: bitmaps are kept, moved pages are
      in the plane but out of the victim, all others have not moved. */
  ghost predicate TableMoved(st0: Ftl, st: Ftl, p: PlaneId, b: nat, n: nat) {
    && st.table.Keys == st0.table.Keys
    && (forall k :: k in st0.table ==> st.table[k].bitmap == st0.table[k].bitmap)
    && (forall k :: k in st0.table && !InVictim(st0, k, p, b, n) ==> st.table[k].addr == st0.table[k].addr)
    && (forall k :: k in st0.table && InVictim(st0, k, p, b, n) ==>
          st.table[k].addr.Some? && st.table[k].addr.value.plane == p && st.table[k].addr.value.block != b)
  }

  /** The bookkeeping after the first `n` pages have been moved. */
  ghost predicate PlaneMoved(c: Config, pl0: Plane, pl: Plane, b: nat, n: nat)
    requires b < |pl0.blocks|
  {
    var blk0 := pl0.blocks[b];
    var slot := Slot(Gc, blk0.stream);
    && |pl.blocks| == |pl0.blocks|
    && pl.blocks[b].written == blk0.written && pl.blocks[b].stream == blk0.stream
    && (forall q: nat :: q in pl.blocks[b].invalid <==> q in blk0.invalid || q < n)
    && pl.free == pl0.free - ValidBelow(blk0.invalid, n)
    && (ValidBelow(blk0.invalid, n) == 0 ==> pl == pl0)
    && (ValidBelow(blk0.invalid, n) > 0 ==> slot.stream < c.streams)
    && (slot.stream < c.streams ==>
          && AllocReady(pl0, slot) && AllocReady(pl, slot)
          && Room(c, pl, slot) == Room(c, pl0, slot) - ValidBelow(blk0.invalid, n))
  }

  ghost predicate Moved(c: Config, st0: Ftl, st: Ftl, p: PlaneId, b: nat, n: nat)
    requires HasBlock(st0.planes, p, b)
  {
    && FtlInv(c, st)
    && Contents(st) == Contents(st0)
    && st.planes.Keys == st0.planes.Keys
    && (forall q :: q in st0.planes && q != p ==> st.planes[q] == st0.planes[q])
    && TableMoved(st0, st, p, b, n)
    && PlaneMoved(c, st0.planes[p], st.planes[p], b, n)
    && st.locked == st0.locked - KeysInBlock(st0, p, b, n)
  }

  lemma NothingMoved(c: Config, st: Ftl, p: PlaneId, b: nat)
    requires FtlInv(c, st) && FullBlock(c, st, p, b)
    ensures Moved(c, st, st, p, b, 0)
  {
    hide MapOk, CountsOk, Contents, PlaneInv;
    var blk := st.planes[p].blocks[b];
    assert KeysInBlock(st, p, b, 0) == {};
    assert PlaneAt(c, st.planes, p);
    if blk.stream < c.streams {
      SlotIsReady(c, st.planes[p], Slot(Gc, blk.stream));
    }
  }

  lemma PlaneSkip(c: Config, pl0: Plane, pl: Plane, b: nat, n: nat)
    requires b < |pl0.blocks| && PlaneMoved(c, pl0, pl, b, n) && n in pl0.blocks[b].invalid
    ensures PlaneMoved(c, pl0, pl, b, n + 1)
  {
    hide Room;
  }

  lemma TableSkip(st0: Ftl, st: Ftl, p: PlaneId, b: nat, n: nat)
    requires TableMoved(st0, st, p, b, n)
    requires forall k :: k in st0.table ==> st0.table[k].addr != Some(PageAddr(p, b, n))
    ensures TableMoved(st0, st, p, b, n + 1)
  {
    assert forall x :: x in st0.table ==> (InVictim(st0, x, p, b, n + 1) <==> InVictim(st0, x, p, b, n));
  }

  /** A page invalid from the start is skipped. */
  lemma SkipKeepsMoved(c: Config, st0: Ftl, st: Ftl, p: PlaneId, b: nat, n: nat)
    requires FtlInv(c, st0) && FullBlock(c, st0, p, b) && n < c.pagesPerBlock
    requires Moved(c, st0, st, p, b, n) && !ValidPage(st0, p, b, n)
    ensures Moved(c, st0, st, p, b, n + 1)
  {
    NextKeyInBlock(c, st0, p, b, n);
    forall k | k in st0.table ensures st0.table[k].addr != Some(PageAddr(p, b, n)) {
      KeyOnPage(c, st0, p, b, n, k);
    }
    hide FtlInv, Contents, KeysInBlock, PlaneMoved, TableMoved;
    TableSkip(st0, st, p, b, n);
    PlaneSkip(c, st0.planes[p], st.planes[p], b, n);
  }

  /** The key found on the next valid page is the one it was written for at the start, still
      mapped there and still locked. */
  lemma NextMovedKey(c: Config, st0: Ftl, st: Ftl, p: PlaneId, b: nat, n: nat) returns (k: Key)
    requires FtlInv(c, st0) && FullBlock(c, st0, p, b) && n < c.pagesPerBlock
    requires Moved(c, st0, st, p, b, n) && ValidPage(st0, p, b, n)
    requires KeysInBlock(st0, p, b, c.pagesPerBlock) <= st0.locked
    ensures ValidPage(st, p, b, n) && k == KeyAt(st, p, b, n) && k == KeyAt(st0, p, b, n)
    ensures k in st.table && k in st0.table && k.stream < c.streams && k.stream == st0.planes[p].blocks[b].stream
    ensures st.table[k].addr == Some(PageAddr(p, b, n)) && st0.table[k].addr == Some(PageAddr(p, b, n))
    ensures k in st.locked
  {
    k := KeyAt(st, p, b, n);
    ValidPageKey(c, st, p, b, n);
    hide FtlInv, Contents, Room;
    assert !InVictim(st0, k, p, b, n);
    OnlyKeyOnPage(c, st0, p, b, n, k);
  }

  lemma TableMovedNext(st0: Ftl, st: Ftl, st': Ftl, p: PlaneId, b: nat, n: nat, k: Key)
    requires TableMoved(st0, st, p, b, n)
    requires k in st0.table && st0.table[k].addr == Some(PageAddr(p, b, n))
    requires forall x :: x in st0.table && st0.table[x].addr == Some(PageAddr(p, b, n)) ==> x == k
    requires st'.table.Keys == st.table.Keys
    requires forall x :: x in st.table && x != k ==> st'.table[x] == st.table[x]
    requires st'.table[k].bitmap == st.table[k].bitmap
    requires st'.table[k].addr.Some? && st'.table[k].addr.value.plane == p && st'.table[k].addr.value.block != b
    ensures TableMoved(st0, st', p, b, n + 1)
  {
    assert forall x :: x in st0.table && x != k ==> (InVictim(st0, x, p, b, n + 1) <==> InVictim(st0, x, p, b, n));
  }

  lemma PlaneMovedNext(c: Config, pl0: Plane, pl: Plane, pl': Plane, b: nat, n: nat)
    requires b < |pl0.blocks| && PlaneMoved(c, pl0, pl, b, n) && n !in pl0.blocks[b].invalid
    requires MoveEffect(c, pl, Slot(Gc, pl0.blocks[b].stream), b, n, pl') && pl0.blocks[b].stream < c.streams
    ensures PlaneMoved(c, pl0, pl', b, n + 1)
  {
    hide Room;
  }

  lemma UniqueOnPage(c: Config, st: Ftl, p: PlaneId, b: nat, n: nat, k: Key)
    requires FtlInv(c, st) && HasBlock(st.planes, p, b)
    requires k in st.table && st.table[k].addr == Some(PageAddr(p, b, n))
    ensures forall x :: x in st.table && st.table[x].addr == Some(PageAddr(p, b, n)) ==> x == k
  {
    forall x | x in st.table && st.table[x].addr == Some(PageAddr(p, b, n)) ensures x == k {
      OnlyKeyOnPage(c, st, p, b, n, x);
      OnlyKeyOnPage(c, st, p, b, n, k);
    }
  }

  /** The plane advances by one page when the key of a live page of the victim is relocated. */
  lemma RelocationInPlane(c: Config, st: Ftl, st1: Ftl, p: PlaneId, b: nat, n: nat, k: Key)
    requires FtlInv(c, st) && FullBlock(c, st, p, b) && FtlInv(c, st1) && p in st1.planes
    requires k in st.table && k.stream < c.streams && st.table[k].addr == Some(PageAddr(p, b, n))
    requires GcWrite(c, st, k, p, st.table[k].bitmap) == Done(st1)
    ensures MoveEffect(c, st.planes[p], Slot(Gc, k.stream), b, n, st1.planes[p])
    ensures st1.table[k].addr.Some? && st1.table[k].addr.value.block != b
    ensures forall q :: q in st.planes && q != p ==> q in st1.planes && st1.planes[q] == st.planes[q]
  {
    hide GcWrite, PlaneInv, Allocate, Invalidate, CountsOk, Contents, Room;
    MoveInPlane(c, st, k, p, st.table[k].bitmap);
    assert EntryOk(c, st, k) && PlaneAt(c, st.planes, p) && PlaneAt(c, st1.planes, p);
    hide FtlInv;
    MovePlane(c, st.planes[p], Slot(Gc, k.stream), b, n, st1.planes[p]);
    hide MoveEffect;
  }

  lemma UnlockNext(locked: set<Key>, keys: set<Key>, k: Key)
    ensures locked - keys - {k} == locked - (keys + {k})
  {
  }

  /** The relocation and unlocking of one valid page. */
  lemma MoveValidPage(c: Config, st0: Ftl, st: Ftl, p: PlaneId, b: nat, n: nat) returns (st': Ftl)
    requires FtlInv(c, st0) && FullBlock(c, st0, p, b) && n < c.pagesPerBlock
    requires Moved(c, st0, st, p, b, n) && ValidPage(st0, p, b, n)
    requires KeysInBlock(st0, p, b, c.pagesPerBlock) <= st0.locked
    requires CanAllocateAt(c, st.planes, Slot(Gc, st0.planes[p].blocks[b].stream), p)
    ensures MovePage(c, st, p, b, n) == Done(st')
    ensures Moved(c, st0, st', p, b, n + 1)
  {
    assert FullBlock(c, st, p, b);
    hide FtlInv, GcWrite, Contents, DiskPad, TableMoved, PlaneMoved, KeyAt;
    var k := NextMovedKey(c, st0, st, p, b, n);
    var bitmap := st.table[k].bitmap;
    var st1 := GcWriteRefines(c, st, k, p, bitmap);
    st' := st1.(locked := st1.locked - {k});
    assert MovePage(c, st, p, b, n) == Done(st');
    assert FtlInv(c, st') && Contents(st') == Contents(st0) by {
      PadIsIdentity(st, k);
      LocksDoNotMatter(c, st1, st'.locked);
    }
    assert TableMoved(st0, st', p, b, n + 1) && PlaneMoved(c, st0.planes[p], st'.planes[p], b, n + 1)
           && forall q :: q in st0.planes && q != p ==> st'.planes[q] == st0.planes[q]
    by {
      UniqueOnPage(c, st0, p, b, n, k);
      RelocationInPlane(c, st, st1, p, b, n, k);
      hide MoveEffect;
      TableMovedNext(st0, st, st', p, b, n, k);
      PlaneMovedNext(c, st0.planes[p], st.planes[p], st1.planes[p], b, n);
    }
    assert st'.locked == st0.locked - KeysInBlock(st0, p, b, n + 1) by {
      NextKeyInBlock(c, st0, p, b, n);
      UnlockNext(st0.locked, KeysInBlock(st0, p, b, n), k);
      hide KeysInBlock;
    }
    hide KeysInBlock;
  }

  /** A valid page that finds no room stops the collection. */
  lemma MoveWithoutRoom(c: Config, st0: Ftl, st: Ftl, p: PlaneId, b: nat, n: nat)
    requires FtlInv(c, st0) && FullBlock(c, st0, p, b) && n < c.pagesPerBlock
    requires Moved(c, st0, st, p, b, n) && ValidPage(st0, p, b, n)
    requires KeysInBlock(st0, p, b, c.pagesPerBlock) <= st0.locked
    requires !CanAllocateAt(c, st.planes, Slot(Gc, st0.planes[p].blocks[b].stream), p)
    ensures MovePage(c, st, p, b, n) == Failed(EmptyPool)
  {
    var k := NextMovedKey(c, st0, st, p, b, n);
    var bitmap := st.table[k].bitmap;
    SetCovers(bitmap, bitmap);
    SamePagesRefl(st.planes);
    hide DeviceOk, CountsOk, Relocate, CanAllocateAt, SamePages, PlaneMoved, TableMoved, EntryOk, KeyAt, Contents,
         KeysInBlock;
    RelocateFails(c, st, st.planes, k, Gc, p, bitmap + bitmap, ImageOf(st, k));
  }

  /** The first `n` pages of the victim fit into the plane's room. */
  ghost predicate FitsUpTo(c: Config, st: Ftl, p: PlaneId, b: nat, n: nat)
    requires HasBlock(st.planes, p, b)
  {
    var pl := st.planes[p];
    var v := ValidBelow(pl.blocks[b].invalid, n);
    var slot := Slot(Gc, pl.blocks[b].stream);
    v == 0 || (AllocReady(pl, slot) && Room(c, pl, slot) + c.pagesPerBlock > v)
  }

  lemma RoomForNext(c: Config, st0: Ftl, st: Ftl, p: PlaneId, b: nat, n: nat)
    requires FtlInv(c, st0) && FullBlock(c, st0, p, b) && n < c.pagesPerBlock
    requires Moved(c, st0, st, p, b, n) && ValidPage(st0, p, b, n)
    ensures CanAllocateAt(c, st.planes, Slot(Gc, st0.planes[p].blocks[b].stream), p) <==> FitsUpTo(c, st0, p, b, n + 1)
  {
    hide Contents, TableMoved, Room, CanAllocate, KeysInBlock, PlaneInv, MapOk, CountsOk;
    ValidPageKey(c, st0, p, b, n);
    var slot := Slot(Gc, st0.planes[p].blocks[b].stream);
    assert PlaneAt(c, st.planes, p);
    hide FtlInv;
    SlotIsReady(c, st.planes[p], slot);
    RoomDecides(c, st.planes[p], slot);
  }

  lemma FitsMonotone(c: Config, st: Ftl, p: PlaneId, b: nat, n: nat)
    requires HasBlock(st.planes, p, b) && FtlInv(c, st)
    ensures FitsUpTo(c, st, p, b, n + 1) ==> FitsUpTo(c, st, p, b, n)
  {
    hide FtlInv, Room;
  }

  lemma NothingFits(c: Config, st: Ftl, p: PlaneId, b: nat)
    requires HasBlock(st.planes, p, b)
    ensures FitsUpTo(c, st, p, b, 0)
  {
  }

  /** One page: moved or skipped when the pages so far fit, refused otherwise. */
  lemma MoveNext(c: Config, st0: Ftl, st: Ftl, p: PlaneId, b: nat, n: nat) returns (st': Ftl)
    requires FtlInv(c, st0) && FullBlock(c, st0, p, b) && n < c.pagesPerBlock
    requires Moved(c, st0, st, p, b, n) && FitsUpTo(c, st0, p, b, n)
    requires KeysInBlock(st0, p, b, c.pagesPerBlock) <= st0.locked
    ensures FitsUpTo(c, st0, p, b, n + 1) ==> MovePage(c, st, p, b, n) == Done(st') && Moved(c, st0, st', p, b, n + 1)
    ensures !FitsUpTo(c, st0, p, b, n + 1) ==> MovePage(c, st, p, b, n) == Failed(EmptyPool)
  {
    st' := st;
    if !ValidPage(st0, p, b, n) {
      SkipKeepsMoved(c, st0, st, p, b, n);
      assert MovePage(c, st, p, b, n) == Done(st) by { hide FtlInv, Contents, TableMoved; }
      assert FitsUpTo(c, st0, p, b, n + 1) by { hide FtlInv, Moved, Room; }
    } else {
      RoomForNext(c, st0, st, p, b, n);
      hide FtlInv, Moved, FitsUpTo, MovePage, KeysInBlock;
      if FitsUpTo(c, st0, p, b, n + 1) {
        st' := MoveValidPage(c, st0, st, p, b, n);
      } else {
        MoveWithoutRoom(c, st0, st, p, b, n);
      }
    }
  }

  /** Moving the first `n` pages succeeds exactly when they fit. */
  lemma {:induction false} MovesFit(c: Config, st0: Ftl, p: PlaneId, b: nat, n: nat) returns (st: Ftl)
    requires FtlInv(c, st0) && FullBlock(c, st0, p, b) && n <= c.pagesPerBlock
    requires KeysInBlock(st0, p, b, c.pagesPerBlock) <= st0.locked
    ensures FitsUpTo(c, st0, p, b, n) ==> MoveUpTo(c, st0, p, b, n) == Done(st) && Moved(c, st0, st, p, b, n)
    ensures !FitsUpTo(c, st0, p, b, n) ==> MoveUpTo(c, st0, p, b, n) == Failed(EmptyPool)
  {
    hide FtlInv, Moved, FitsUpTo, MovePage, KeysInBlock, HasBlock;
    st := st0;
    if n == 0 {
      NothingMoved(c, st0, p, b);
      NothingFits(c, st0, p, b);
    } else {
      FitsMonotone(c, st0, p, b, n - 1);
      st := MovesFit(c, st0, p, b, n - 1);
      if FitsUpTo(c, st0, p, b, n - 1) {
        st := MoveNext(c, st0, st, p, b, n - 1);
      }
    }
  }

  // ----- the whole cycle -----

  lemma Scaled(pages: nat, d: int, k: int)
    requires d >= k
    ensures pages * d >= pages * k
  {
    assert pages * (d - k) >= 0;
  }

  lemma PoolBound(pages: nat, x: int, y: int, w: int, u: int, v: int)
    requires pages * x - w == pages * y - u - v
    requires 0 <= w < pages && 0 <= u < pages && 0 <= v <= pages
    ensures y - 1 <= x <= y
  {
    assert pages * (y - x) == u + v - w;
    if y - x >= 2 { Scaled(pages, y - x, 2); }
    if x - y >= 1 { Scaled(pages, x - y, 1); }
  }

  /** After all moves the victim is fully invalid and at most one block left the pool. */
  lemma VictimIsEmpty(c: Config, st0: Ftl, st: Ftl, p: PlaneId, b: nat)
    requires FtlInv(c, st0) && FullBlock(c, st0, p, b) && Moved(c, st0, st, p, b, c.pagesPerBlock)
    ensures FullyInvalid(c, st.planes[p], b)
    ensures st.planes[p].free == st0.planes[p].free - (c.pagesPerBlock - st0.planes[p].blocks[b].invalidCount)
    ensures |st0.planes[p].pool| - 1 <= |st.planes[p].pool| <= |st0.planes[p].pool|
  {
    var pl0, pl := st0.planes[p], st.planes[p];
    assert PlaneAt(c, st0.planes, p) && PlaneAt(c, st.planes, p);
    hide FtlInv, Contents, TableMoved, KeysInBlock;
    FullFacts(c, pl0, pl, b);
  }

  lemma FullFacts(c: Config, pl0: Plane, pl: Plane, b: nat)
    requires PlaneInv(c, pl0) && PlaneInv(c, pl) && b < |pl0.blocks| && pl0.blocks[b].written == c.pagesPerBlock
    requires PlaneMoved(c, pl0, pl, b, c.pagesPerBlock)
    ensures FullyInvalid(c, pl, b)
    ensures pl.free == pl0.free - (c.pagesPerBlock - pl0.blocks[b].invalidCount)
    ensures |pl0.pool| - 1 <= |pl.pool| <= |pl0.pool|
  {
    var blk0, slot := pl0.blocks[b], Slot(Gc, pl0.blocks[b].stream);
    var v := ValidBelow(blk0.invalid, c.pagesPerBlock);
    assert BlockOk(c.pagesPerBlock, blk0) && BlockOk(c.pagesPerBlock, pl.blocks[b]);
    if slot.stream < c.streams {
      PlaneIsReady(c, pl0, SlotsBelow(c.streams), slot);
      PlaneIsReady(c, pl, SlotsBelow(c.streams), slot);
    }
    hide PlaneInv, PlaneOk, AllocReady;
    ValidBelowCount(blk0.invalid, c.pagesPerBlock);
    EverythingInvalid(c.pagesPerBlock, pl.blocks[b].invalid);
    if v > 0 {
      PoolBound(c.pagesPerBlock, |pl.pool|, |pl0.pool|, pl.blocks[pl.open[slot]].written,
                pl0.blocks[pl0.open[slot]].written, v);
    }
  }

  lemma EverythingInvalid(pages: nat, invalid: set<nat>)
    requires forall q: nat :: q in invalid <==> q < pages
    ensures |invalid| == pages
  {
    assert invalid == Below(pages);
    BelowSize(pages);
  }

  /** A caller can tell beforehand whether a cycle fits: nothing to move, a free block in the
      pool, or enough room in the collector's open block. */
  ghost predicate CycleFits(c: Config, pl: Plane, b: nat)
    requires b < |pl.blocks|
  {
    var v := c.pagesPerBlock - pl.blocks[b].invalidCount;
    var slot := Slot(Gc, pl.blocks[b].stream);
    v == 0 || pl.pool != [] || (AllocReady(pl, slot) && pl.blocks[pl.open[slot]].written + v < c.pagesPerBlock)
  }

  lemma CycleFitsIsRoom(c: Config, st: Ftl, p: PlaneId, b: nat)
    requires FtlInv(c, st) && FullBlock(c, st, p, b)
    ensures FitsUpTo(c, st, p, b, c.pagesPerBlock) <==> CycleFits(c, st.planes[p], b)
  {
    var pl := st.planes[p];
    var blk := pl.blocks[b];
    var slot := Slot(Gc, blk.stream);
    assert PlaneAt(c, st.planes, p);
    assert BlockOk(c.pagesPerBlock, blk);
    ValidBelowCount(blk.invalid, c.pagesPerBlock);
    if ValidBelow(blk.invalid, c.pagesPerBlock) > 0 {
      var q := SomeValidPage(blk.invalid, c.pagesPerBlock);
      ValidPageKey(c, st, p, b, q);
      PlaneIsReady(c, pl, SlotsBelow(c.streams), slot);
      hide FtlInv, PlaneInv;
      if |pl.pool| >= 1 { Scaled(c.pagesPerBlock, |pl.pool|, 1); }
    }
    hide FtlInv, PlaneInv;
  }

  lemma {:induction false} SomeValidPage(invalid: set<nat>, n: nat) returns (q: nat)
    requires ValidBelow(invalid, n) > 0
    ensures q < n && q !in invalid
  {
    if n - 1 !in invalid { q := n - 1; } else { q := SomeValidPage(invalid, n - 1); }
  }

  /** The state after a completed cycle. */
  ghost predicate Collected(c: Config, st: Ftl, p: PlaneId, b: nat, st': Ftl)
    requires HasBlock(st.planes, p, b)
  {
    var pl := st.planes[p];
    && FtlInv(c, st')
    && Contents(st') == Contents(st)
    && st'.locked == st.locked
    && st'.planes.Keys == st.planes.Keys
    && TableMoved(st, st', p, b, c.pagesPerBlock)
    && (forall k :: k in st'.table ==> !InVictim(st', k, p, b, c.pagesPerBlock))
    && (forall q :: q in st.planes && q != p ==> st'.planes[q] == st.planes[q])
    && st'.planes[p].free == pl.free + pl.blocks[b].invalidCount
    && |pl.pool| <= |st'.planes[p].pool| <= |pl.pool| + 1
    && InPool(st'.planes[p].pool, b)
  }

  lemma UnlockAll(locked: set<Key>, keys: set<Key>)
    requires keys !! locked
    ensures locked + keys - keys == locked
  {
  }

  lemma EraseInPlane(c: Config, st: Ftl, p: PlaneId, b: nat, st': Ftl)
    requires EraseBlock(c, st, p, b) == Done(st') && p in st.planes
    requires PlaneInv(c, st.planes[p]) && FullyInvalid(c, st.planes[p], b)
    ensures st'.planes.Keys == st.planes.Keys
    ensures forall q :: q in st.planes && q != p ==> st'.planes[q] == st.planes[q]
    ensures st'.planes[p].free == st.planes[p].free + c.pagesPerBlock
    ensures |st'.planes[p].pool| == |st.planes[p].pool| + 1 && InPool(st'.planes[p].pool, b)
  {
    EraseKeeps(c, st.planes[p], b);
    hide PlaneInv, Erase, InPool;
  }

  lemma SameMoves(st0: Ftl, st: Ftl, st': Ftl, p: PlaneId, b: nat, n: nat)
    requires TableMoved(st0, st, p, b, n) && st'.table == st.table
    ensures TableMoved(st0, st', p, b, n)
  {
  }

  /** The end of a cycle: with every page moved, the erase succeeds. */
  lemma EraseMoved(c: Config, st1: Ftl, st2: Ftl, p: PlaneId, b: nat) returns (st': Ftl)
    requires FtlInv(c, st1) && FullBlock(c, st1, p, b) && Moved(c, st1, st2, p, b, c.pagesPerBlock)
    ensures EraseBlock(c, st2, p, b) == Done(st') && FtlInv(c, st') && Contents(st') == Contents(st1)
    ensures st'.locked == st2.locked && TableMoved(st1, st', p, b, c.pagesPerBlock)
    ensures st'.planes.Keys == st1.planes.Keys
    ensures forall q :: q in st1.planes && q != p ==> st'.planes[q] == st1.planes[q]
    ensures st'.planes[p].free == st1.planes[p].free + st1.planes[p].blocks[b].invalidCount
    ensures |st1.planes[p].pool| <= |st'.planes[p].pool| <= |st1.planes[p].pool| + 1
    ensures InPool(st'.planes[p].pool, b)
  {
    VictimIsEmpty(c, st1, st2, p, b);
    st' := EraseBlockRefines(c, st2, p, b);
    assert PlaneAt(c, st2.planes, p);
    hide FtlInv, Contents, EraseBlock, PlaneInv, PlaneMoved, TableMoved, KeysInBlock, InPool, FullyInvalid;
    EraseInPlane(c, st2, p, b, st');
    SameMoves(st1, st2, st', p, b, c.pagesPerBlock);
  }

  /** A cycle on a full block none of whose logical pages is locked: it keeps every mapping
      entry's bitmap and the contents of the disk, leaves no entry in the victim, moves nothing
      out of the plane, releases its barriers, takes at most one block from the pool and returns
      one, and raises the plane's free pages by exactly the victim's invalid pages. */
  lemma CollectWorks(c: Config, st: Ftl, p: PlaneId, b: nat) returns (st': Ftl)
    requires FtlInv(c, st) && FullBlock(c, st, p, b)
    requires KeysInBlock(st, p, b, c.pagesPerBlock) !! st.locked
    requires CycleFits(c, st.planes[p], b)
    ensures Collect(c, st, p, b) == Done(st') && Collected(c, st, p, b, st')
  {
    hide FtlInv, Contents, FitsUpTo, MoveUpTo, EraseBlock, InPool, CycleFits, BarrierUpTo, TableMoved, PlaneMoved;
    var keys := KeysInBlock(st, p, b, c.pagesPerBlock);
    var st1 := st.(locked := st.locked + keys);
    BarrierIsExact(c, st, p, b, c.pagesPerBlock);
    LocksDoNotMatter(c, st, st1.locked);
    assert FullBlock(c, st1, p, b);
    assert KeysInBlock(st1, p, b, c.pagesPerBlock) == keys;
    hide KeysInBlock;
    CycleFitsIsRoom(c, st1, p, b);
    UnlockAll(st.locked, keys);
    var st2 := MovesFit(c, st1, p, b, c.pagesPerBlock);
    st' := EraseMoved(c, st1, st2, p, b);
    assert TableMoved(st, st', p, b, c.pagesPerBlock) by { SameStart(st, st1, st', p, b, c.pagesPerBlock); }
    NobodyLeft(st, st', p, b, c.pagesPerBlock);
  }

  lemma NobodyLeft(st0: Ftl, st: Ftl, p: PlaneId, b: nat, n: nat)
    requires TableMoved(st0, st, p, b, n)
    ensures forall k :: k in st.table ==> !InVictim(st, k, p, b, n)
  {
  }

  lemma SameStart(st0: Ftl, st1: Ftl, st: Ftl, p: PlaneId, b: nat, n: nat)
    requires TableMoved(st1, st, p, b, n) && st1.table == st0.table
    ensures TableMoved(st0, st, p, b, n)
  {
    assert forall k :: InVictim(st0, k, p, b, n) <==> InVictim(st1, k, p, b, n);
  }

  /** And otherwise the cycle fails: when a logical page of the victim is locked already, or
      when its valid pages do not fit. */
  lemma CollectFails(c: Config, st: Ftl, p: PlaneId, b: nat)
    requires FtlInv(c, st) && FullBlock(c, st, p, b)
    ensures Collect(c, st, p, b).Done?
            <==> KeysInBlock(st, p, b, c.pagesPerBlock) !! st.locked && CycleFits(c, st.planes[p], b)
  {
    var keys := KeysInBlock(st, p, b, c.pagesPerBlock);
    BarrierIsExact(c, st, p, b, c.pagesPerBlock);
    if keys !! st.locked {
      var st1 := st.(locked := st.locked + keys);
      LocksDoNotMatter(c, st, st1.locked);
      assert FullBlock(c, st1, p, b);
      assert KeysInBlock(st1, p, b, c.pagesPerBlock) == keys;
      CycleFitsIsRoom(c, st1, p, b);
      if CycleFits(c, st.planes[p], b) {
        var st' := CollectWorks(c, st, p, b);
      } else {
        hide FtlInv, Contents, KeysInBlock, FitsUpTo, MoveUpTo, CycleFits, BarrierUpTo;
        var st2 := MovesFit(c, st1, p, b, c.pagesPerBlock);
      }
    }
    hide FtlInv, KeysInBlock, CycleFits, MoveUpTo, EraseBlock, BarrierUpTo;
  }

  // ----- repeated collection -----

  /** `victims` are collected one after the other in plane `p`, each holding an invalid page. */
  ghost function CollectEach(c: Config, st: Ftl, p: PlaneId, victims: seq<nat>): Outcome {
    if victims == [] then Done(st)
    else
      match CollectEach(c, st, p, victims[..|victims| - 1])
      case Failed(e) => Failed(e)
      case Refused => Refused
      case Done(st1) =>
        var b := victims[|victims| - 1];
        if !FullBlock(c, st1, p, b) || st1.planes[p].blocks[b].invalidCount == 0 then Refused
        else Collect(c, st1, p, b)
  }

  /** Every cycle frees a page, so the number of cycles without new writes is bounded by the
      pages that are not free; the disk is the same after all of them. */
  lemma {:induction false} CollectionTerminates(c: Config, st: Ftl, p: PlaneId, victims: seq<nat>)
    requires FtlInv(c, st) && p in st.planes && CollectEach(c, st, p, victims).Done?
    ensures var st' := CollectEach(c, st, p, victims).st;
            && FtlInv(c, st') && Contents(st') == Contents(st)
            && p in st'.planes && st'.planes[p].free >= st.planes[p].free + |victims|
            && |victims| <= st'.planes[p].total - st.planes[p].free
  {
    var st' := CollectEach(c, st, p, victims).st;
    if victims != [] {
      var b := victims[|victims| - 1];
      CollectionTerminates(c, st, p, victims[..|victims| - 1]);
      var st1 := CollectEach(c, st, p, victims[..|victims| - 1]).st;
      CollectFails(c, st1, p, b);
      hide FtlInv, Contents, KeysInBlock, CycleFits, TableMoved, Collect;
      var st2 := CollectWorks(c, st1, p, b);
    }
    FreeBelowTotal(c, st', p);
    hide FtlInv, Contents;
  }

  lemma FreeBelowTotal(c: Config, st: Ftl, p: PlaneId)
    requires FtlInv(c, st) && p in st.planes
    ensures st.planes[p].free <= st.planes[p].total
  {
    assert PlaneAt(c, st.planes, p);
    CountersAreSafe(c, st.planes[p], SlotsBelow(c.streams));
    hide FtlInv, PlaneInv;
  }
}
