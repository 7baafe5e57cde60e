/** All planes of the device, addressed by physical page. */
module DeviceModel {
  import opened FlashTypes
  import opened PlaneModel
  import opened PlaneProofs
  import opened Marks

  type Planes = map<PlaneId, Plane>

  ghost predicate PlaneAt(c: Config, ps: Planes, p: PlaneId) {
    p in ps ==> PlaneInv(c, ps[p])
  }

  ghost predicate DeviceOk(c: Config, ps: Planes) {
    && GoodConfig(c)
    && (forall p :: PlaneAt(c, ps, p))
    && (forall s: nat, l: nat :: s < c.streams ==> c.home(s, l) in ps)
  }

  ghost predicate HasBlock(ps: Planes, p: PlaneId, b: nat) {
    p in ps && b < |ps[p].blocks|
  }

  /** The page has been handed out since its block was last erased. */
  ghost predicate Programmed(ps: Planes, a: PageAddr) {
    HasBlock(ps, a.plane, a.block) && a.page < ps[a.plane].blocks[a.block].written
  }

  /** The page has been handed out and not been invalidated. */
  ghost predicate Live(ps: Planes, a: PageAddr) {
    a.plane in ps && LiveIn(ps[a.plane], a.block, a.page)
  }

  ghost function StreamAt(ps: Planes, a: PageAddr): nat
    requires Programmed(ps, a)
  {
    ps[a.plane].blocks[a.block].stream
  }

  datatype DeviceResult = DeviceDone(planes: Planes) | DeviceFailed(error: FtlError)

  ghost function InvalidateAt(ps: Planes, stream: nat, a: PageAddr): DeviceResult {
    if !HasBlock(ps, a.plane, a.block) then DeviceFailed(AddressOutOfDevice)
    else
      match Invalidate(ps[a.plane], stream, a.block, a.page)
      case PlaneFailed(e) => DeviceFailed(e)
      case PlaneOkay(pl) => DeviceDone(ps[a.plane := pl])
  }

  datatype PageResult = GotPage(planes: Planes, addr: PageAddr) | NoPage(error: FtlError)

  ghost function AllocateAt(c: Config, ps: Planes, slot: Slot, p: PlaneId): PageResult {
    if p !in ps || !AllocReady(ps[p], slot) then NoPage(AddressOutOfDevice)
    else
      match Allocate(c, ps[p], slot)
      case AllocFailed(e) => NoPage(e)
      case Allocated(pl, b, page) => GotPage(ps[p := pl], PageAddr(p, b, page))
  }

  ghost function EraseAt(c: Config, ps: Planes, p: PlaneId, b: nat): DeviceResult {
    if !HasBlock(ps, p, b) then DeviceFailed(AddressOutOfDevice)
    else
      match Erase(c, ps[p], b)
      case PlaneFailed(e) => DeviceFailed(e)
      case PlaneOkay(pl) => DeviceDone(ps[p := pl])
  }

  ghost function MarkAt(ps: Planes, p: PlaneId, b: nat, m: Mark): DeviceResult {
    if !HasBlock(ps, p, b) then DeviceFailed(AddressOutOfDevice)
    else
      DeviceDone(ps[p := MarkedIn(ps[p], b, m)])
  }

  // ----- effects on the pages of the device -----

  /** Two devices whose programmed and live pages, and their streams, are the same. */
  ghost predicate SamePages(ps: Planes, ps': Planes) {
    && ps'.Keys == ps.Keys
    && (forall a :: Live(ps', a) <==> Live(ps, a))
    && (forall a :: Programmed(ps', a) <==> Programmed(ps, a))
    && (forall a :: Live(ps, a) ==> StreamAt(ps', a) == StreamAt(ps, a))
    && (forall p :: p in ps ==> ps'[p].valid == ps[p].valid)
  }

  lemma UpdateKeeps(c: Config, ps: Planes, p: PlaneId, pl: Plane)
    requires DeviceOk(c, ps) && p in ps && PlaneInv(c, pl)
    ensures DeviceOk(c, ps[p := pl])
  {
    var ps' := ps[p := pl];
    forall q ensures PlaneAt(c, ps', q) {
      assert PlaneAt(c, ps, q);
    }
    hide PlaneInv;
  }

  lemma MarkAtPages(ps: Planes, p: PlaneId, b: nat, m: Mark)
    requires HasBlock(ps, p, b)
    ensures MarkAt(ps, p, b, m).DeviceDone? && SamePages(ps, MarkAt(ps, p, b, m).planes)
  {
  }

  lemma MarkAtKeeps(c: Config, ps: Planes, p: PlaneId, b: nat, m: Mark)
    requires DeviceOk(c, ps) && HasBlock(ps, p, b)
    ensures MarkAt(ps, p, b, m).DeviceDone? && DeviceOk(c, MarkAt(ps, p, b, m).planes)
  {
    assert PlaneAt(c, ps, p);
    var pl := ps[p];
    var blk := Marked(pl.blocks[b], m);
    MarkKeeps(c, pl, SlotsBelow(c.streams), b, blk);
    UpdateKeeps(c, ps, p, pl.(blocks := pl.blocks[b := blk]));
  }

  /** What invalidating page `a` changes: that page is no longer live. */
  ghost predicate InvalidateEffect(ps: Planes, a: PageAddr, ps': Planes) {
    && ps'.Keys == ps.Keys
    && (forall x :: Live(ps', x) <==> Live(ps, x) && x != a)
    && (forall x :: Programmed(ps', x) <==> Programmed(ps, x))
    && (forall x :: Programmed(ps, x) ==> StreamAt(ps', x) == StreamAt(ps, x))
    && (forall p :: p in ps ==>
          && ps'[p].valid == ps[p].valid - (if p == a.plane then 1 else 0)
          && ps'[p].free == ps[p].free && ps'[p].pool == ps[p].pool && ps'[p].open == ps[p].open)
  }

  lemma InvalidateAtPages(ps: Planes, stream: nat, a: PageAddr)
    requires Live(ps, a) && StreamAt(ps, a) == stream
    ensures InvalidateAt(ps, stream, a).DeviceDone?
    ensures InvalidateEffect(ps, a, InvalidateAt(ps, stream, a).planes)
  {
  }

  lemma InvalidateAtWrites(ps: Planes, stream: nat, a: PageAddr, p: PlaneId, b: nat)
    requires Live(ps, a) && StreamAt(ps, a) == stream && HasBlock(ps, p, b)
    ensures InvalidateAt(ps, stream, a).DeviceDone?
    ensures var ps' := InvalidateAt(ps, stream, a).planes;
            HasBlock(ps', p, b) && ps'[p].blocks[b].written == ps[p].blocks[b].written
  {
  }

  /** Invalidating a live page fails exactly for the wrong stream, and keeps every plane
      invariant. */
  lemma InvalidateAtKeeps(c: Config, ps: Planes, stream: nat, a: PageAddr)
    requires DeviceOk(c, ps) && Live(ps, a)
    ensures InvalidateAt(ps, stream, a).DeviceDone? <==> StreamAt(ps, a) == stream
    ensures StreamAt(ps, a) == stream ==> DeviceOk(c, InvalidateAt(ps, stream, a).planes)
  {
    assert PlaneAt(c, ps, a.plane);
    InvalidateKeeps(c, ps[a.plane], SlotsBelow(c.streams), stream, a.block, a.page);
    if StreamAt(ps, a) == stream {
      UpdateKeeps(c, ps, a.plane, Invalidate(ps[a.plane], stream, a.block, a.page).plane);
    }
  }

  /** On any page of the device: the stream decides whether it fails, and the page being live
      whether every plane invariant is kept. */
  lemma InvalidateAtKeepsExactly(c: Config, ps: Planes, stream: nat, a: PageAddr)
    requires DeviceOk(c, ps) && HasBlock(ps, a.plane, a.block)
    ensures InvalidateAt(ps, stream, a).DeviceDone? <==> ps[a.plane].blocks[a.block].stream == stream
    ensures InvalidateAt(ps, stream, a).DeviceDone? ==>
              (DeviceOk(c, InvalidateAt(ps, stream, a).planes) <==> Live(ps, a))
  {
    assert PlaneAt(c, ps, a.plane);
    if ps[a.plane].blocks[a.block].stream == stream {
      InvalidateKeepsExactly(c, ps[a.plane], a.block, a.page);
      var ps' := InvalidateAt(ps, stream, a).planes;
      hide PlaneInv, Invalidate;
      if Live(ps, a) {
        UpdateKeeps(c, ps, a.plane, ps'[a.plane]);
      } else {
        assert !PlaneAt(c, ps', a.plane);
      }
    }
  }

  ghost predicate CanAllocateAt(c: Config, ps: Planes, slot: Slot, p: PlaneId) {
    p in ps && CanAllocate(c, ps[p], slot)
  }

  lemma AllocateAtKeeps(c: Config, ps: Planes, slot: Slot, p: PlaneId)
    requires DeviceOk(c, ps) && slot.stream < c.streams && p in ps
    ensures CanAllocateAt(c, ps, slot, p) ==>
              AllocateAt(c, ps, slot, p).GotPage? && DeviceOk(c, AllocateAt(c, ps, slot, p).planes)
    ensures !CanAllocateAt(c, ps, slot, p) ==> AllocateAt(c, ps, slot, p) == NoPage(EmptyPool)
  {
    assert PlaneAt(c, ps, p);
    AllocateKeeps(c, ps[p], slot);
    if CanAllocateAt(c, ps, slot, p) {
      UpdateKeeps(c, ps, p, Allocate(c, ps[p], slot).plane);
    }
  }

  /** What handing out page `a` changes: it becomes programmed and live. */
  ghost predicate AllocateAtEffect(ps: Planes, stream: nat, a: PageAddr, ps': Planes) {
    && ps'.Keys == ps.Keys
    && !Programmed(ps, a) && Live(ps', a) && StreamAt(ps', a) == stream
    && (forall x :: Live(ps', x) <==> Live(ps, x) || x == a)
    && (forall x :: Live(ps, x) ==> StreamAt(ps', x) == StreamAt(ps, x))
    && (forall x :: Programmed(ps', x) <==> Programmed(ps, x) || x == a)
    && (forall q :: q in ps ==> ps'[q].valid == ps[q].valid + (if q == a.plane then 1 else 0))
    && (forall q :: q in ps && q != a.plane ==> ps'[q] == ps[q])
  }

  /** The same inside one plane. */
  ghost predicate AllocatedIn(pl: Plane, stream: nat, b: nat, page: nat, pl': Plane) {
    && |pl'.blocks| == |pl.blocks| && b < |pl.blocks|
    && page == pl.blocks[b].written && page !in pl.blocks[b].invalid
    && pl'.blocks[b].written == page + 1 && pl'.blocks[b].stream == stream
    && pl'.valid == pl.valid + 1
    && forall x: nat :: x < |pl.blocks| ==>
         && pl'.blocks[x].invalid == pl.blocks[x].invalid
         && (x != b ==> pl'.blocks[x].written == pl.blocks[x].written)
         && (pl.blocks[x].written > 0 ==> pl'.blocks[x].stream == pl.blocks[x].stream)
  }

  lemma AllocateIsAllocatedIn(c: Config, pl: Plane, slot: Slot)
    requires PlaneInv(c, pl) && slot.stream < c.streams && CanAllocate(c, pl, slot)
    ensures Allocate(c, pl, slot).Allocated?
    ensures var r := Allocate(c, pl, slot); AllocatedIn(pl, slot.stream, r.block, r.page, r.plane)
  {
    hide Allocate, PlaneInv;
    AllocateKeeps(c, pl, slot);
    SlotIsReady(c, pl, slot);
    AllocateChanges(c, pl, slot);
  }

  lemma LiftAllocate(ps: Planes, p: PlaneId, stream: nat, b: nat, page: nat, pl': Plane)
    requires p in ps && AllocatedIn(ps[p], stream, b, page, pl')
    ensures AllocateAtEffect(ps, stream, PageAddr(p, b, page), ps[p := pl'])
  {
  }

  lemma AllocateAtPages(c: Config, ps: Planes, slot: Slot, p: PlaneId)
    requires DeviceOk(c, ps) && slot.stream < c.streams && CanAllocateAt(c, ps, slot, p)
    ensures AllocateAt(c, ps, slot, p).GotPage? && AllocateAt(c, ps, slot, p).addr.plane == p
    ensures AllocateAtEffect(ps, slot.stream, AllocateAt(c, ps, slot, p).addr, AllocateAt(c, ps, slot, p).planes)
  {
    assert PlaneAt(c, ps, p);
    AllocateIsAllocatedIn(c, ps[p], slot);
    hide PlaneInv, Allocate;
    var r := Allocate(c, ps[p], slot);
    LiftAllocate(ps, p, slot.stream, r.block, r.page, r.plane);
  }

  lemma EraseAtKeeps(c: Config, ps: Planes, p: PlaneId, b: nat)
    requires DeviceOk(c, ps) && p in ps && FullyInvalid(c, ps[p], b)
    ensures EraseAt(c, ps, p, b).DeviceDone? && DeviceOk(c, EraseAt(c, ps, p, b).planes)
  {
    assert PlaneAt(c, ps, p);
    EraseKeeps(c, ps[p], b);
    hide PlaneInv;
    UpdateKeeps(c, ps, p, Erase(c, ps[p], b).plane);
  }

  /** What erasing a block without live pages changes: its pages are no longer programmed. */
  ghost predicate EraseEffect(ps: Planes, p: PlaneId, b: nat, ps': Planes) {
    && ps'.Keys == ps.Keys
    && (forall x :: Live(ps', x) <==> Live(ps, x))
    && (forall x :: Live(ps, x) ==> StreamAt(ps', x) == StreamAt(ps, x))
    && (forall x :: Programmed(ps', x) <==> Programmed(ps, x) && !(x.plane == p && x.block == b))
    && (forall q :: q in ps ==> ps'[q].valid == ps[q].valid)
  }

  lemma LiftErase(ps: Planes, p: PlaneId, b: nat, pl': Plane)
    requires HasBlock(ps, p, b)
    requires |pl'.blocks| == |ps[p].blocks| && pl'.valid == ps[p].valid && pl'.blocks[b].written == 0
    requires forall page: nat :: !LiveIn(ps[p], b, page)
    requires forall x: nat :: x < |pl'.blocks| && x != b ==> pl'.blocks[x] == ps[p].blocks[x]
    ensures EraseEffect(ps, p, b, ps[p := pl'])
  {
  }

  lemma EraseAtPages(c: Config, ps: Planes, p: PlaneId, b: nat)
    requires p in ps && PlaneInv(c, ps[p]) && FullyInvalid(c, ps[p], b)
    ensures EraseAt(c, ps, p, b).DeviceDone?
    ensures EraseEffect(ps, p, b, EraseAt(c, ps, p, b).planes)
  {
    var pl := ps[p];
    EraseKeeps(c, pl, b);
    forall page: nat ensures !LiveIn(pl, b, page) {
      FullyInvalidHasNoLivePage(c, pl, SlotsBelow(c.streams), b, page);
    }
    hide PlaneInv;
    LiftErase(ps, p, b, Erase(c, pl, b).plane);
  }
}
