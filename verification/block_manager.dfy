/** The block manager: the page allocators, invalidation, erase and the transaction counters,
    on the plane records. Every method is tied to the device operation it implements. */
module BlockManagement {
  import opened FlashTypes
  import opened PlaneModel
  import opened PlaneProofs
  import opened Marks
  import opened DeviceModel
  import opened PlaneBookkeeping
  import opened InitialPlanes
  import opened Transactions
  import opened GcWl

  /** The outcome of a page allocator on plane value `v`. */
  ghost predicate Took(c: Config, v: Plane, x: Slot, r: Option<FtlError>, v': Plane, block: nat, page: nat) {
    AllocReady(v, x) &&
    match Allocate(c, v, x)
    case AllocFailed(e) => r == Some(e)
    case Allocated(pl, b, pg) => r == None && v' == pl && block == b && page == pg
  }

  class BlockManager {
    const c: Config
    const gcUnit: GcWlUnit
    const planes: map<PlaneId, PlaneBookKeeping>
    ghost const footprint: set<object>
    ghost var device: Planes

    constructor (c: Config, gcUnit: GcWlUnit, planes: map<PlaneId, PlaneBookKeeping>, ghost footprint: set<object>,
                 ghost device: Planes)
      ensures this.c == c && this.gcUnit == gcUnit && this.planes == planes
      ensures this.footprint == footprint && this.device == device
    {
      this.c, this.gcUnit, this.planes, this.footprint := c, gcUnit, planes, footprint;
      this.device := device;
    }

    /** The plane records and all their block records are in the footprint. */
    ghost predicate Closed() {
      forall p :: p in planes ==> Within(p)
    }

    /** The records of plane `p`. */
    ghost function Region(p: PlaneId): set<object>
      requires p in planes
    {
      var plane: set<object> := {planes[p]};
      var blocks: set<object> := set b: BlockSlot | b in planes[p].blocks :: b;
      plane + blocks
    }

    ghost predicate Within(p: PlaneId)
      requires p in planes
    {
      && planes[p] in footprint && planes[p].id == p
      && (forall b :: b in planes[p].blocks ==> b in footprint && b.planeId == p)
    }

    /** The record of plane `p` is well formed and has value `v`. */
    ghost predicate Records(p: PlaneId, v: Plane)
      requires p in planes
      reads planes[p], planes[p].blocks
    {
      gcUnit.Matches(planes[p]) && planes[p].Value() == v
    }

    /** The record of plane `p` has the value the device gives it. */
    ghost predicate Sound(p: PlaneId)
      requires p in planes && Within(p)
      reads this, footprint
    {
      p in device && Records(p, device[p])
    }

    /** All records are well formed and the device invariant holds. */
    ghost predicate Valid()
      reads this, footprint, gcUnit
    {
      && this !in footprint && gcUnit !in footprint && gcUnit.DrawsInRange() && gcUnit.c == c
      && Closed()
      && device.Keys == planes.Keys
      && (forall p :: p in planes ==> Within(p) && Sound(p))
      && DeviceOk(c, device)
    }

    /** Nothing of the manager itself is in the footprint, and everything else is. */
    ghost predicate Placed() {
      this !in footprint && gcUnit !in footprint && gcUnit.c == c && Closed()
    }

    /** The records of different planes share no object. */
    lemma RegionsApart(q: PlaneId, p: PlaneId)
      requires q in planes && p in planes && Within(q) && Within(p) && q != p
      ensures Region(q) <= footprint - Region(p) && planes[q] in Region(q)
      ensures forall b :: b in planes[q].blocks ==> b in Region(q)
    {
    }

    /** Plane `q` is recorded in `ps`, which nothing in plane `p` can change. */
    ghost predicate Other(p: PlaneId, q: PlaneId, ps: Planes)
      requires Closed() && p in planes && q in planes && q != p
      reads footprint - Region(p)
    {
      RegionsApart(q, p);
      q in ps && Records(q, ps[q])
    }

    /** All planes but `p` are recorded in `ps`. */
    ghost predicate Others(p: PlaneId, ps: Planes)
      requires Closed() && p in planes
      reads footprint - Region(p)
    {
      forall q :: q in planes && q != p ==> Other(p, q, ps)
    }

    lemma OthersAreSound(p: PlaneId)
      requires Valid() && p in planes
      ensures Placed() && device.Keys == planes.Keys && Others(p, device)
    {
      hide DeviceOk, Records;
      forall q | q in planes && q != p ensures Other(p, q, device) {
        assert Sound(q);
      }
    }

    /** What happens in one plane stays in that plane: with its new value recorded, everything
        is valid again. */
    lemma ValidAgain(p: PlaneId, ps: Planes)
      requires Placed() && p in planes && ps.Keys == planes.Keys && Others(p, ps)
      requires device == ps[p := planes[p].Value()] && gcUnit.DrawsInRange() && gcUnit.Matches(planes[p])
      requires DeviceOk(c, device)
      ensures Valid()
    {
      assert Records(p, device[p]);
      hide DeviceOk, Records;
      forall q | q in planes ensures Within(q) && Sound(q) {
        if q != p { assert Other(p, q, ps); }
      }
    }

    // The page allocator, step by step on plane values.

    lemma TookWithRoom(v: Plane, x: Slot, v1: Plane, block: nat, page: nat)
      requires AllocReady(v, x) && HandedOut(v, x, v1, block, page) && page + 1 != c.pagesPerBlock
      ensures Took(c, v, x, CheckBookKeeping(v1), v1, block, page)
    {
    }

    lemma TookLastPage(v: Plane, x: Slot, v1: Plane, v2: Plane, block: nat, page: nat)
      requires AllocReady(v, x) && HandedOut(v, x, v1, block, page) && page + 1 == c.pagesPerBlock
      requires Reopened(v1, x, v2)
      ensures v2.history != []
      ensures Took(c, v, x, CheckBookKeeping(GcCheckEffect(c, v2)), GcCheckEffect(c, v2), block, page)
    {
    }

    lemma TookNothing(v: Plane, x: Slot, v1: Plane, v': Plane, block: nat, page: nat)
      requires AllocReady(v, x) && HandedOut(v, x, v1, block, page) && page + 1 == c.pagesPerBlock && v1.pool == []
      ensures Took(c, v, x, Some(EmptyPool), v', block, page)
    {
    }

    /** Hand out the next page of the slot's open block, replacing the block when it is full.
        The three allocators differ in the slot, and in that a user write is counted as an
        ongoing program. */
    method TakePage(plane: PlaneBookKeeping, x: Slot) returns (r: Option<FtlError>, block: nat, page: nat)
      requires gcUnit.c == c && gcUnit.Fits(plane) && PlaneInv(c, plane.Value()) && x.stream < c.streams
      modifies plane, plane.blocks, gcUnit`draws
      ensures Took(c, old(plane.Value()), x, r, plane.Value(), block, page)
      ensures r == None ==> gcUnit.Fits(plane)
    {
      hide PlaneInv, PlaneBookKeeping.Shaped, PlaneBookKeeping.Value, Took, HandedOut, Reopened, AllocReady;
      ghost var v := plane.Value();
      SlotIsReady(c, v, x);
      block, page := plane.ProgramNext(x);
      ghost var v1 := plane.Value();
      if page + 1 == plane.pagesPerBlock {
        var done := plane.Reopen(x);
        if !done {
          TookNothing(v, x, v1, plane.Value(), block, page);
          return Some(EmptyPool), block, page;
        }
        TookLastPage(v, x, v1, plane.Value(), block, page);
        var candidate, sample := gcUnit.CheckGcRequired(plane.FreeBlockCount(), plane);
      } else {
        TookWithRoom(v, x, v1, block, page);
      }
      r := plane.CheckBookKeepingCorrectness();
    }

    // ----- the operations of the manager -----

    /** The records of one plane are in shape, apart from the rest. */
    lemma PlaneFacts(p: PlaneId)
      requires Valid() && p in planes
      ensures gcUnit.c == c && gcUnit.Fits(planes[p]) && p in device && device[p] == planes[p].Value()
      ensures PlaneInv(c, device[p]) && DeviceOk(c, device)
      ensures planes[p] in footprint && Region(p) <= footprint && gcUnit !in footprint && this !in footprint
      ensures planes[p] in Region(p) && forall b :: b in planes[p].blocks ==> b in Region(p)
      ensures Placed() && device.Keys == planes.Keys && Others(p, device)
    {
      hide PlaneInv, PlaneBookKeeping.Value, PlaneBookKeeping.Shaped, Others;
      OthersAreSound(p);
      assert Within(p) && Sound(p);
      assert PlaneAt(c, device, p);
    }

    /** The outcome of an allocation on the device. */
    ghost predicate AllocatedAt(ps: Planes, x: Slot, p: PlaneId, r: Option<FtlError>, ps': Planes, a: PageAddr) {
      match AllocateAt(c, ps, x, p)
      case NoPage(e) => r == Some(e)
      case GotPage(ps2, a2) => r == None && ps' == ps2 && a == a2
    }

    lemma TookIsAllocated(ps: Planes, x: Slot, p: PlaneId, r: Option<FtlError>, pl: Plane, block: nat, page: nat)
      requires p in ps && Took(c, ps[p], x, r, pl, block, page)
      ensures AllocatedAt(ps, x, p, r, ps[p := pl], PageAddr(p, block, page))
    {
    }

    lemma AllocationKeepsDevice(ps: Planes, x: Slot, p: PlaneId, r: Option<FtlError>, ps': Planes, a: PageAddr)
      requires DeviceOk(c, ps) && p in ps && x.stream < c.streams && AllocatedAt(ps, x, p, r, ps', a) && r == None
      ensures DeviceOk(c, ps')
    {
      hide DeviceOk, CanAllocateAt;
      AllocateAtKeeps(c, ps, x, p);
    }

    /** A page for the slot in the plane of `address`, whose block and page are filled in. */
    method Allocate(x: Slot, address: PhysicalPageAddress) returns (r: Option<FtlError>)
      requires Valid() && x.stream < c.streams && address.Plane() in planes && address !in footprint
      modifies Region(address.Plane()), gcUnit`draws, `device, address`blockId, address`pageId
      ensures AllocatedAt(old(device), x, old(address.Plane()), r, device, address.Value())
      ensures r == None ==> Valid()
    {
      hide Valid, DeviceOk, PlaneInv, AllocatedAt, Took, Region, Others, PlaneBookKeeping.Value,
           PlaneBookKeeping.Shaped;
      ghost var p := address.Plane();
      PlaneFacts(p);
      var plane := planes[address.Plane()];
      var block, page;
      r, block, page := TakePage(plane, x);
      address.blockId, address.pageId := block, page;
      device := device[p := plane.Value()];
      TookIsAllocated(old(device), x, p, r, plane.Value(), block, page);
      if r == None {
        AllocationKeepsDevice(old(device), x, p, r, device, address.Value());
        ValidAgain(p, old(device));
      }
    }

    method AllocateBlockAndPageInPlaneForUserWrite(stream: nat, address: PhysicalPageAddress)
      returns (r: Option<FtlError>)
      requires Valid() && stream < c.streams && address.Plane() in planes && address !in footprint
      modifies Region(address.Plane()), gcUnit`draws, `device, address`blockId, address`pageId
      ensures AllocatedAt(old(device), Slot(Data, stream), old(address.Plane()), r, device, address.Value())
      ensures r == None ==> Valid()
    {
      r := Allocate(Slot(Data, stream), address);
    }

    method AllocateBlockAndPageInPlaneForGcWrite(stream: nat, address: PhysicalPageAddress)
      returns (r: Option<FtlError>)
      requires Valid() && stream < c.streams && address.Plane() in planes && address !in footprint
      modifies Region(address.Plane()), gcUnit`draws, `device, address`blockId, address`pageId
      ensures AllocatedAt(old(device), Slot(Gc, stream), old(address.Plane()), r, device, address.Value())
      ensures r == None ==> Valid()
    {
      r := Allocate(Slot(Gc, stream), address);
    }

    method AllocateBlockAndPageInPlaneForTranslationGcWrite(stream: nat, address: PhysicalPageAddress)
      returns (r: Option<FtlError>)
      requires Valid() && stream < c.streams && address.Plane() in planes && address !in footprint
      modifies Region(address.Plane()), gcUnit`draws, `device, address`blockId, address`pageId
      ensures AllocatedAt(old(device), Slot(Translation, stream), old(address.Plane()), r, device, address.Value())
      ensures r == None ==> Valid()
    {
      r := Allocate(Slot(Translation, stream), address);
    }

    /** The outcome of an operation that yields a device or an error. */
    ghost predicate Became(o: DeviceResult, r: Option<FtlError>, ps': Planes) {
      match o
      case DeviceFailed(e) => r == Some(e)
      case DeviceDone(ps) => r == None && ps' == ps
    }

    /** InvalidatePageInBlock on any page of the device. With the wrong stream it fails; otherwise
        the manager stays valid exactly if the page was live, which the code does not check. */
    method InvalidatePageInBlock(stream: nat, address: PhysicalPageAddress) returns (r: Option<FtlError>)
      requires Valid() && HasBlock(device, address.Plane(), address.blockId) && address.pageId < c.pagesPerBlock
      modifies Region(address.Plane()), `device
      ensures Became(InvalidateAt(old(device), stream, old(address.Value())), r, device)
      ensures r == None ==> (Valid() <==> old(Live(device, address.Value())))
    {
      hide DeviceOk, PlaneInv, Region, Others, PlaneBookKeeping.Value, PlaneBookKeeping.Shaped, PlaneModel.Invalidate,
           Live;
      ghost var p, a := address.Plane(), address.Value();
      BlockExists(p, a.block);
      InvalidateAtKeepsExactly(c, device, stream, a);
      hide Valid, HasBlock;
      var plane := planes[address.Plane()];
      r := plane.Invalidate(stream, address.blockId, address.pageId);
      device := device[p := plane.Value()];
      if r == None {
        if Live(old(device), a) {
          ValidAgain(p, old(device));
        } else {
          NotOkNotValid();
        }
      }
    }

    lemma NotOkNotValid()
      requires !DeviceOk(c, device)
      ensures !Valid()
    {
    }

    /** AddErasedBlockToPool as the code has it, up to and including its own check. */
    method AddErasedBlockToPool(address: PhysicalPageAddress) returns (r: Option<FtlError>)
      requires Valid() && HasBlock(device, address.Plane(), address.blockId)
      modifies Region(address.Plane())
      ensures match EraseAsWritten(c, old(device)[old(address.Plane())], old(address.blockId))
              case PlaneFailed(e) => r == Some(e)
              case PlaneOkay(pl) => r == None && planes[old(address.Plane())].Value() == pl
    {
      hide Valid, DeviceOk, PlaneInv, Region, Others, PlaneBookKeeping.Value, PlaneBookKeeping.Shaped, ReturnBlock;
      ghost var p := address.Plane();
      BlockExists(p, address.blockId);
      var plane := planes[address.Plane()];
      var invalid := plane.InvalidCount(address.blockId);
      plane.ReturnBlock(address.blockId, plane.pagesPerBlock - invalid, c);
      r := plane.CheckBookKeepingCorrectness();
    }

    /** The same with the intended credit: the invalid pages become free. */
    method AddErasedBlockToPoolRepaired(address: PhysicalPageAddress) returns (r: Option<FtlError>)
      requires Valid() && HasBlock(device, address.Plane(), address.blockId)
      requires FullyInvalid(c, device[address.Plane()], address.blockId)
      modifies Region(address.Plane()), `device
      ensures r == None && Valid()
      ensures Became(EraseAt(c, old(device), old(address.Plane()), old(address.blockId)), r, device)
    {
      hide Valid, DeviceOk, PlaneInv, Region, Others, PlaneBookKeeping.Value, PlaneBookKeeping.Shaped, ReturnBlock,
           FullyInvalid;
      ghost var p, b := address.Plane(), address.blockId;
      BlockExists(p, b);
      var plane := planes[address.Plane()];
      var invalid := plane.InvalidCount(address.blockId);
      plane.ReturnBlock(address.blockId, invalid, c);
      r := plane.CheckBookKeepingCorrectness();
      device := device[p := plane.Value()];
      EraseAtKeeps(c, old(device), p, b);
      ValidAgain(p, old(device));
    }

    lemma BlockExists(p: PlaneId, b: nat)
      requires Valid() && HasBlock(device, p, b)
      ensures p in planes && b < |planes[p].blocks|
      ensures gcUnit.c == c && gcUnit.Fits(planes[p]) && device[p] == planes[p].Value()
      ensures gcUnit.Matches(planes[p]) && gcUnit.DrawsInRange()
      ensures planes[p].Shaped() && planes[p].pagesPerBlock == c.pagesPerBlock && DeviceOk(c, device)
      ensures planes[p] in footprint && Region(p) <= footprint && gcUnit !in footprint && this !in footprint
      ensures planes[p] in Region(p) && forall x :: x in planes[p].blocks ==> x in Region(p)
      ensures Placed() && device.Keys == planes.Keys && Others(p, device)
    {
      hide PlaneInv, Others;
      PlaneFacts(p);
    }

    /** The ongoing-transaction counters and the collection flag of a block: the six methods
        ReadTransactionStartedOnBlock, ReadTransactionFinishedOnBlock,
        ProgramTransactionStartedOnBlock, ProgramTransactionFinishedOnBlock, GcStartedOnBlock
        and GcFinishedOnBlock. */
    method MarkBlock(address: PhysicalPageAddress, m: Mark)
      requires Valid() && HasBlock(device, address.Plane(), address.blockId)
      modifies Region(address.Plane()), `device
      ensures Valid()
      ensures Became(MarkAt(old(device), old(address.Plane()), old(address.blockId), m), None, device)
      ensures var p, b := old(address.Plane()), old(address.blockId);
              HasBlock(device, p, b) && MarkTaken(old(device)[p].blocks[b], m, device[p].blocks[b])
    {
      hide Valid, DeviceOk, PlaneInv, Region, Others, PlaneBookKeeping.Value, PlaneBookKeeping.Shaped;
      ghost var p, b := address.Plane(), address.blockId;
      BlockExists(p, b);
      var plane := planes[address.Plane()];
      plane.MarkBlock(address.blockId, m);
      MarkMovesOne(device[p], b, m);
      device := device[p := plane.Value()];
      MarkAtKeeps(c, old(device), p, b, m);
      ValidAgain(p, old(device));
    }
  }

  // ----- construction -----

  /** The plane coordinates of a device of the given dimensions. */
  predicate InDevice(channels: nat, chips: nat, dies: nat, planes: nat, p: PlaneId) {
    p.channel < channels && p.chip < chips && p.die < dies && p.plane < planes
  }

  /** The order in which the constructor visits the planes: channel, chip, die, plane. */
  method PlaneIds(channels: nat, chips: nat, dies: nat, planes: nat) returns (ids: seq<PlaneId>)
    ensures forall p :: p in ids <==> InDevice(channels, chips, dies, planes, p)
  {
    ids := [];
    for channel := 0 to channels
      invariant forall p :: p in ids <==> InDevice(channel, chips, dies, planes, p)
    {
      ghost var done1 := ids;
      for chip := 0 to chips
        invariant forall p ::
                    p in ids <==>
                      p in done1 || (p.channel == channel && p.chip < chip && p.die < dies && p.plane < planes)
      {
        ghost var done2 := ids;
        for die := 0 to dies
          invariant forall p ::
                      p in ids <==>
                        p in done2 || (p.channel == channel && p.chip == chip && p.die < die && p.plane < planes)
        {
          ghost var done3 := ids;
          for plane := 0 to planes
            invariant forall p ::
                        p in ids <==>
                          p in done3 || (p.channel == channel && p.chip == chip && p.die == die && p.plane < plane)
          {
            ids := ids + [PlaneId(channel, chip, die, plane)];
          }
        }
      }
    }
  }

  /** The record of plane `p` as the constructor leaves it. */
  ghost predicate Built(p: PlaneId, plane: PlaneBookKeeping, c: Config, footprint: set<object>)
    requires GoodConfig(c) && 3 * c.streams <= c.blocksPerPlane
    reads plane, plane.blocks
  {
    && plane in footprint && plane.id == p
    && (forall b :: b in plane.blocks ==> b in footprint && b.planeId == p)
    && plane.Shaped() && plane.streams == c.streams && plane.pagesPerBlock == c.pagesPerBlock
    && |plane.dataOpenBlocks| == c.streams && |plane.blocks| == c.blocksPerPlane
    && plane.Value() == InitialPlane(c)
  }

  /** One plane: all blocks in the pool, then three opened per stream; this fails exactly when
      the plane has fewer blocks than that. */
  method NewPlane(p: PlaneId, c: Config) returns (r: Option<FtlError>, plane: PlaneBookKeeping)
    requires GoodConfig(c)
    ensures fresh(plane) && forall b :: b in plane.blocks ==> fresh(b)
    ensures r == None <==> 3 * c.streams <= c.blocksPerPlane
    ensures r == None ==> Built(p, plane, c, {plane} + set b: BlockSlot | b in plane.blocks :: b)
  {
    hide PlaneBookKeeping.Value, OpenStreams;
    plane := new PlaneBookKeeping(p, c);
    BlocksOfPlane(plane);
    assert forall b: BlockSlot :: b in plane.blocks ==> fresh(b);
    r := plane.OpenAll();
    if r == None {
      BlocksOfPlane(plane);
    }
  }

  lemma BlocksOfPlane(plane: PlaneBookKeeping)
    requires plane.Shaped()
    ensures forall b :: b in plane.blocks ==> b.planeId == plane.id
  {
    hide BlockSlot.Shaped;
  }

  /** The constructor: every plane is built, and the manager starts out valid. */
  method Build(c: Config, gcUnit: GcWlUnit, channels: nat, chips: nat, dies: nat, planesPerDie: nat)
    returns (r: Option<FtlError>, manager: BlockManager?)
    requires GoodConfig(c) && gcUnit.c == c && gcUnit.DrawsInRange()
    requires forall s: nat, l: nat :: s < c.streams ==> InDevice(channels, chips, dies, planesPerDie, c.home(s, l))
    ensures r == None <==> 3 * c.streams <= c.blocksPerPlane
    ensures r == None ==>
              && manager != null && fresh(manager) && manager.Valid() && manager.c == c
              && (forall o :: o in manager.footprint ==> fresh(o))
              && (forall p :: p in manager.device <==> InDevice(channels, chips, dies, planesPerDie, p))
              && (forall p :: p in manager.device ==> manager.device[p] == InitialPlane(c))
  {
    hide Built, DeviceOk, InitialPlane, BlockManager.Valid;
    manager := null;
    var ids := PlaneIds(channels, chips, dies, planesPerDie);
    var built: map<PlaneId, PlaneBookKeeping> := map[];
    ghost var footprint: set<object> := {};
    assert c.home(0, 0) in ids;
    for i := 0 to |ids|
      invariant i > 0 ==> 3 * c.streams <= c.blocksPerPlane
      invariant forall p :: p in built <==> p in ids[..i]
      invariant forall p :: p in built ==> Built(p, built[p], c, footprint)
      invariant forall o :: o in footprint ==> fresh(o)
    {
      var plane;
      r, plane := NewPlane(ids[i], c);
      if r != None {
        return;
      }
      ghost var own: set<object> := {plane} + set b: BlockSlot | b in plane.blocks :: b;
      forall p | p in built ensures Built(p, built[p], c, footprint + own) {
        BuiltInMore(p, built[p], c, footprint, footprint + own);
      }
      BuiltInMore(ids[i], plane, c, own, footprint + own);
      footprint := footprint + own;
      built := built[ids[i] := plane];
    }
    r := None;
    assert ids[..|ids|] == ids;
    ghost var device := map p | p in built :: InitialPlane(c);
    manager := new BlockManager(c, gcUnit, built, footprint, device);
    InitialDevice(c, device);
    BuiltIsValid(manager);
  }

  lemma BuiltInMore(p: PlaneId, plane: PlaneBookKeeping, c: Config, inner: set<object>, outer: set<object>)
    requires GoodConfig(c) && 3 * c.streams <= c.blocksPerPlane && Built(p, plane, c, inner) && inner <= outer
    ensures Built(p, plane, c, outer)
  {
    hide PlaneBookKeeping.Value, PlaneBookKeeping.Shaped, InitialPlane;
  }

  lemma InitialDevice(c: Config, device: Planes)
    requires GoodConfig(c) && 3 * c.streams <= c.blocksPerPlane
    requires forall s: nat, l: nat :: s < c.streams ==> c.home(s, l) in device
    requires forall p :: p in device ==> device[p] == InitialPlane(c)
    ensures DeviceOk(c, device)
  {
    InitialPlaneInv(c);
    hide PlaneInv, InitialPlane;
    forall p ensures PlaneAt(c, device, p) {}
  }

  lemma BuiltIsValid(m: BlockManager)
    requires GoodConfig(m.c) && 3 * m.c.streams <= m.c.blocksPerPlane
    requires m !in m.footprint && m.gcUnit !in m.footprint && m.gcUnit.c == m.c && m.gcUnit.DrawsInRange()
    requires m.device.Keys == m.planes.Keys && DeviceOk(m.c, m.device)
    requires forall p :: p in m.planes ==> Built(p, m.planes[p], m.c, m.footprint)
    requires forall p :: p in m.device ==> m.device[p] == InitialPlane(m.c)
    ensures m.Valid()
  {
    hide DeviceOk, PlaneBookKeeping.Value, PlaneBookKeeping.Shaped, InitialPlane;
    forall p | p in m.planes ensures m.Within(p) && m.Sound(p) {
      assert Built(p, m.planes[p], m.c, m.footprint);
    }
  }
}
