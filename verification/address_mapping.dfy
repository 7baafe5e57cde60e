/** The page-level address mapping: the imperative layer over the block manager and the mapping
    tables. Every method is tied to the step of the state machine it implements. */
module AddressMapping {
  import opened FlashTypes
  import opened PlaneModel
  import opened PlaneProofs
  import opened Marks
  import opened DeviceModel
  import opened FtlModel
  import opened FtlProofs
  import opened FtlSteps
  import opened GcCycle
  import FtlRuns
  import opened OngoingMarks
  import opened PlaneBookkeeping
  import opened AddressCodec
  import opened Striping
  import opened Bits
  import opened MappingDomains
  import opened BlockManagement
  import opened Transactions

  /** A step of the state machine ended with `r` in state `st'`; a failure stops the program. */
  ghost predicate Ended(o: Outcome, r: Option<FtlError>, st': Ftl) {
    match o
    case Done(st) => r == None && st' == st
    case Refused => false
    case Failed(e) => r == Some(e)
  }

  // ----- values -----

  /** Live pages lie inside the device geometry. */
  lemma LiveInBox(c: Config, g: Geometry, ps: Planes, a: PageAddr)
    requires DeviceOk(c, ps) && Live(ps, a) && InPlaneBox(g, a.plane)
    requires g.pagesPerBlock == c.pagesPerBlock && g.blocksPerPlane == c.blocksPerPlane
    ensures InBox(g, a)
  {
    assert PlaneAt(c, ps, a.plane);
    assert BlockOk(c.pagesPerBlock, ps[a.plane].blocks[a.block]);
  }

  /** The steps of a relocation make up the relocation. */
  lemma RelocationComposes(c: Config, st: Ftl, ps: Planes, k: Key, kind: Kind, p: PlaneId, bitmap: set<nat>,
                           image: Image, ps1: Planes, r: Option<FtlError>, ps2: Planes, a: PageAddr)
    requires k in st.table && st.table[k].addr.Some?
    requires InvalidateAt(ps, k.stream, st.table[k].addr.value) == DeviceDone(ps1)
    requires match AllocateAt(c, ps1, Slot(kind, k.stream), p)
             case NoPage(e) => r == Some(e)
             case GotPage(q, b) => r == None && ps2 == q && a == b
    ensures Ended(Relocate(c, st, ps, k, kind, p, bitmap, image), r, Remap(st, ps2, k, a, bitmap, Some(image)))
  {
  }

  /** The planes once the read of page `a` has been counted, if it is needed. */
  ghost function ReadCounted(ps: Planes, a: PageAddr, needed: bool): Planes
    requires HasBlock(ps, a.plane, a.block)
  {
    if needed then MarkAt(ps, a.plane, a.block, ReadStarted).planes else ps
  }

  lemma RetireWorks(c: Config, st: Ftl, k: Key, readFirst: bool)
    requires FtlInv(c, st) && k in st.table && st.table[k].addr.Some?
    ensures var a := st.table[k].addr.value;
            && HasBlock(st.planes, a.plane, a.block)
            && MarkAt(st.planes, a.plane, a.block, ReadStarted).DeviceDone?
            && var ps := ReadCounted(st.planes, a, readFirst);
               && DeviceOk(c, ps) && Live(ps, a) && StreamAt(ps, a) == k.stream
               && InvalidateAt(ps, k.stream, a).DeviceDone?
               && HasBlock(ps, a.plane, a.block) && a.page < c.pagesPerBlock
  {
    var a := st.table[k].addr.value;
    assert EntryOk(c, st, k);
    hide MapOk, CountsOk, DeviceOk, InvalidateAt;
    MarkAtKeeps(c, st.planes, a.plane, a.block, ReadStarted);
    MarkAtPages(st.planes, a.plane, a.block, ReadStarted);
    var ps := ReadCounted(st.planes, a, readFirst);
    InvalidateAtKeeps(c, ps, k.stream, a);
    assert PlaneAt(c, ps, a.plane);
    assert BlockOk(c.pagesPerBlock, ps[a.plane].blocks[a.block]);
  }

  /** The steps of a user write make up the write. */
  lemma WriteComposes(c: Config, st: Ftl, k: Key, data: Image, readFirst: bool, ps1: Planes, r: Option<FtlError>,
                      ps2: Planes, a: PageAddr)
    requires k in st.table && st.table[k].addr.Some?
    requires readFirst <==> st.table[k].bitmap * data.Keys != st.table[k].bitmap
    requires var was := st.table[k].addr.value;
             HasBlock(st.planes, was.plane, was.block)
             && InvalidateAt(ReadCounted(st.planes, was, readFirst), k.stream, was) == DeviceDone(ps1)
    requires match AllocateAt(c, ps1, Slot(Data, k.stream), c.home(k.stream, k.lpa))
             case NoPage(e) => r == Some(e)
             case GotPage(q, b) => r == None && ps2 == q && a == b
    ensures r.Some? ==> forall st' :: Ended(WritePage(c, st, k, data), r, st')
    ensures r == None ==>
              var was, prev := st.table[k].addr.value, st.table[k].bitmap;
              var st' := Remap(st, ps2, k, a, data.Keys + prev, Some(MergedImage(st, was, prev, data)));
              WritePage(c, st, k, data) == Done(st') && Ended(WritePage(c, st, k, data), r, st')
  {
    hide InvalidateAt, AllocateAt, Remap, MergedImage;
  }

  /** What a write to a page without an entry, or without a page, comes to. */
  lemma WriteUnmapped(c: Config, st: Ftl, k: Key, data: Image, st': Ftl)
    ensures k !in st.table ==> Ended(WritePage(c, st, k, data), Some(EntryNotValid), st')
    ensures k in st.table && st.table[k].addr == None ==>
            Ended(WritePage(c, st, k, data), Some(AddressOutOfDevice), st')
  {
    hide Relocate;
  }

  /** The overwrite test and the union of two sector bitmaps, on the sets they stand for. */
  lemma WordsAsSets(prev: bv64, write: bv64)
    ensures prev & write == prev <==> Bits.Bits(prev) * Bits.Bits(write) == Bits.Bits(prev)
    ensures prev & write == prev <==> Bits.Bits(prev) <= Bits.Bits(write)
    ensures Bits.Bits(write | prev) == Bits.Bits(write) + Bits.Bits(prev)
  {
    OverwriteTest(prev, write);
    BitsOfOr(write, prev);
    hide Bits.Bits;
    SetCovers(Bits.Bits(prev), Bits.Bits(write));
  }

  class AddressMappingPageLevel {
    const c: Config
    const g: Geometry
    const blockManager: BlockManager
    const domains: seq<AddressMappingDomain>
    ghost var model: Ftl

    constructor (c: Config, g: Geometry, blockManager: BlockManager, domains: seq<AddressMappingDomain>,
                 ghost model: Ftl)
      ensures this.c == c && this.g == g && this.blockManager == blockManager && this.domains == domains
              && this.model == model
    {
      this.c, this.g, this.blockManager, this.domains := c, g, blockManager, domains;
      this.model := model;
    }

    /** The dimensions agree, a domain stands for each stream and stripes as the configuration
        says, and NO_VALUE is not a page number. */
    ghost predicate Static() {
      && Consistent(g) && TotalPages(g) <= NO_VALUE
      && g.pagesPerBlock == c.pagesPerBlock && g.blocksPerPlane == c.blocksPerPlane
      && blockManager.c == c && |domains| == c.streams && Registered(domains)
      && (forall i :: 0 <= i < |domains| ==> Nonempty(domains[i].ids))
      && (forall s: nat, l: nat :: s < |domains| ==> c.home(s, l) == Stripe(domains[s].ids, l))
      && (forall p :: p in blockManager.planes ==> InPlaneBox(g, p))
    }

    /** No mapping table and no domain is part of a plane record. */
    ghost predicate Apart() {
      && (forall t :: t in Tables(domains) ==> t !in blockManager.footprint)
      && (forall d :: d in domains ==> d !in blockManager.footprint)
      && (forall i, j :: 0 <= i < j < |domains| ==> domains[i] != domains[j])
      && this !in blockManager.footprint
    }

    /** The locked pages of every domain. */
    ghost predicate LocksAgree(locked: set<Key>)
      reads domains
    {
      forall s: nat, l: nat :: s < |domains| ==> (Key(s, l) in locked <==> l in domains[s].lockedLpa)
    }

    /** The records stand for the state `st`. */
    ghost predicate StandsFor(st: Ftl)
      reads blockManager, blockManager.footprint, blockManager.gcUnit, Tables(domains), domains
    {
      && Static() && Apart()
      && blockManager.Valid() && blockManager.device == st.planes
      && Tabled(g, domains, st.table) && LocksAgree(st.locked)
      && FtlInv(c, st)
    }

    ghost predicate Valid()
      reads this, blockManager, blockManager.footprint, blockManager.gcUnit, Tables(domains), domains
    {
      StandsFor(model)
    }

    lemma ModelIsSound()
      requires Valid()
      ensures FtlInv(c, model)
    {
      hide FtlInv, BlockManager.Valid, Tabled, LocksAgree, Static;
    }

    /** The layer starts out valid: over a device as constructed, with an unmapped entry for
        every logical page and nothing locked. */
    lemma StartsValid(ids: set<PlaneId>, keys: set<Key>)
      requires Static() && Apart() && FtlRuns.GoodDevice(c, ids, keys)
      requires model == FtlRuns.Initial(c, ids, keys)
      requires blockManager.Valid() && blockManager.device == model.planes && Tabled(g, domains, model.table)
      requires forall i :: 0 <= i < |domains| ==> domains[i].lockedLpa == {}
      ensures Valid() && Contents(model) == map[]
    {
      hide Static, BlockManager.Valid, Tabled, FtlInv, Contents;
      FtlRuns.InitialInv(c, ids, keys);
    }

    // ----- addresses -----

    method ConvertPPAtoAddress(ppa: nat, address: PhysicalPageAddress) returns (ok: bool)
      modifies address
      ensures ok <==> ToAddress(g, ppa).Some?
      ensures ok ==> address.Value() == ToAddress(g, ppa).value
    {
      if g.pagesPerChannel == 0 || g.pagesPerChip == 0 || g.pagesPerDie == 0 || g.pagesPerPlane == 0
        || g.pagesPerBlock == 0 {
        return false;
      }
      address.channelId := ppa / g.pagesPerChannel;
      address.chipId := (ppa % g.pagesPerChannel) / g.pagesPerChip;
      address.dieId := ((ppa % g.pagesPerChannel) % g.pagesPerChip) / g.pagesPerDie;
      address.planeId := (((ppa % g.pagesPerChannel) % g.pagesPerChip) % g.pagesPerDie) / g.pagesPerPlane;
      address.blockId :=
        ((((ppa % g.pagesPerChannel) % g.pagesPerChip) % g.pagesPerDie) % g.pagesPerPlane) / g.pagesPerBlock;
      address.pageId :=
        ((((ppa % g.pagesPerChannel) % g.pagesPerChip) % g.pagesPerDie) % g.pagesPerPlane) % g.pagesPerBlock;
      ok := true;
    }

    /** The form that creates the address. */
    method ConvertPPAtoNewAddress(ppa: nat) returns (ok: bool, address: PhysicalPageAddress)
      ensures fresh(address) && (ok <==> ToAddress(g, ppa).Some?)
      ensures ok ==> address.Value() == ToAddress(g, ppa).value
    {
      address := new PhysicalPageAddress();
      ok := ConvertPPAtoAddress(ppa, address);
    }

    function ConvertAddresstoPPA(address: PhysicalPageAddress): nat
      reads address
    {
      ToPpa(g, address.Value())
    }

    /** The page of a mapped entry is live, in the device, and decodes from its number. */
    lemma MappedPage(k: Key)
      requires Valid() && k in model.table && model.table[k].addr.Some?
      ensures var a := model.table[k].addr.value;
              && k.stream < c.streams && Live(blockManager.device, a) && StreamAt(blockManager.device, a) == k.stream
              && ToAddress(g, ToPpa(g, a)) == Some(a) && a.plane in blockManager.planes
              && HasBlock(model.planes, a.plane, a.block)
    {
      hide BlockManager.Closed, BlockManager.Within, BlockManager.Sound, PlaneInv, ToAddress, ToPpa;
      var a := model.table[k].addr.value;
      assert EntryOk(c, model, k);
      LiveInBox(c, g, model.planes, a);
      DecodeEncode(g, a);
    }

    /** NO_VALUE decodes to a plane that does not exist. */
    lemma NoPage()
      requires Valid()
      ensures ToAddress(g, NO_VALUE).Some? && ToAddress(g, NO_VALUE).value.plane !in blockManager.planes
    {
      hide ToAddress, BlockManager.Valid, FtlInv;
      NoValueIsOutside(g);
    }

    lemma HomeExists(k: Key)
      requires Valid() && k.stream < |domains|
      ensures c.home(k.stream, k.lpa) in blockManager.planes && blockManager.c == c
    {
      hide BlockManager.Closed, BlockManager.Within, BlockManager.Sound, PlaneAt;
    }

    /** What decoding the number in the table of `k` yields. */
    lemma DecodedEntry(k: Key)
      requires Valid() && k in model.table
      ensures var a := ToAddress(g, PpaIn(g, model.table, k).value);
              && a.Some? && (a.value.plane in blockManager.planes <==> model.table[k].addr.Some?)
              && (model.table[k].addr.Some? ==> a == model.table[k].addr)
    {
      hide Valid, ToAddress, ToPpa;
      if model.table[k].addr.Some? { MappedPage(k); } else { NoPage(); }
    }

    /** GetPPA and GetPageStatus of the domain; the lookup reorders its table and nothing else. */
    method Lookup(streamId: nat, lpa: bv64) returns (found: bool, ppa: nat, bitmap: bv64)
      requires Valid() && streamId < |domains| && Packable(lpa)
      modifies Tables(domains)
      ensures Valid()
      ensures var k := Key(streamId, Num(lpa));
              && (found <==> k in model.table)
              && (found ==> PpaIn(g, model.table, k) == Some(ppa) && model.table[k].bitmap == Bits.Bits(bitmap))
    {
      hide Num, FtlInv, BlockManager.Valid, Tabled, ToPpa, Static, LocksAgree;
      var domain := domains[streamId];
      assert domain.cmt in Tables(domains);
      var p := domain.GetPPA(lpa, g, domains, streamId, model.table);
      var b := domain.GetPageStatus(lpa, g, domains, streamId, model.table);
      found := p.Some? && b.Some?;
      if found {
        ppa, bitmap := p.value, b.value;
      } else {
        ppa, bitmap := 0, 0;
      }
    }

    /** Only NO_VALUE stands for an entry without a page. */
    lemma NoValueMeansUnmapped(k: Key)
      requires Valid() && k in model.table
      ensures PpaIn(g, model.table, k) == Some(NO_VALUE) <==> model.table[k].addr == None
    {
      DecodedEntry(k);
      NoPage();
      hide Valid, ToAddress, ToPpa;
    }

    /** The entry of a logical page, and the address its page number decodes to. */
    method OldPage(streamId: nat, lpa: bv64) returns (found: bool, ppa: nat, bitmap: bv64, was: PhysicalPageAddress)
      requires Valid() && streamId < |domains| && Packable(lpa)
      modifies Tables(domains)
      ensures Valid() && fresh(was)
      ensures var k := Key(streamId, Num(lpa));
              && (found <==> k in model.table)
              && (found ==> Decoded(model.table[k], ppa, bitmap, was.Value()))
    {
      hide Num, ToAddress, ToPpa, PpaIn, StandsFor;
      ghost var k := Key(streamId, Num(lpa));
      found, ppa, bitmap := Lookup(streamId, lpa);
      if found {
        DecodedEntry(k);
        NoValueMeansUnmapped(k);
        var ok;
        ok, was := ConvertPPAtoNewAddress(ppa);
      } else {
        was := new PhysicalPageAddress();
      }
    }

    /** The page number, bitmap and decoded address of an entry; only NO_VALUE leaves the device. */
    ghost predicate Decoded(e: Entry, ppa: nat, bitmap: bv64, a: PageAddr) {
      && (a.plane in blockManager.planes <==> e.addr.Some?) && (ppa == NO_VALUE <==> e.addr == None)
      && (e.addr.Some? ==> e == Entry(Some(a), Bits.Bits(bitmap)))
    }

    // ----- placing a page -----

    /** Take a page for the slot in the plane of `address` and map the logical page to it. */
    method Place(kind: Kind, streamId: nat, lpa: bv64, bitmap: bv64, address: PhysicalPageAddress, ghost table: Table)
      returns (r: Option<FtlError>, ppa: nat)
      requires Static() && Apart() && blockManager.Valid() && Tabled(g, domains, table)
      requires streamId < |domains| && Packable(lpa) && Key(streamId, Num(lpa)) in table
      requires address.Plane() in blockManager.planes && address !in blockManager.footprint
      modifies blockManager.footprint, blockManager.gcUnit`draws, blockManager`device, address`blockId, address`pageId
      modifies Tables(domains)
      ensures blockManager.AllocatedAt(old(blockManager.device), Slot(kind, streamId), old(address.Plane()), r,
                                       blockManager.device, address.Value())
      ensures r == None ==>
                && blockManager.Valid() && ppa == ToPpa(g, address.Value())
                && Tabled(g, domains, table[Key(streamId, Num(lpa)) := Entry(Some(address.Value()), Bits.Bits(bitmap))])
    {
      hide BlockManager.Valid, BlockManager.AllocatedAt, Tabled, Num, ToPpa, BlockManager.Region, Registered;
      ppa := 0;
      RegionInFootprint(address.Plane());
      r := blockManager.Allocate(Slot(kind, streamId), address);
      if r == None {
        ppa := ConvertAddresstoPPA(address);
        assert domains[streamId].cmt in Tables(domains);
        var ok := domains[streamId].UpdateMappingInfo(lpa, ppa, bitmap, g, domains, streamId, table,
                                                      Entry(Some(address.Value()), Bits.Bits(bitmap)));
      }
    }

    lemma RegionInFootprint(p: PlaneId)
      requires blockManager.Valid() && p in blockManager.planes
      ensures blockManager.Region(p) <= blockManager.footprint
    {
      hide BlockManager.Valid, BlockManager.Region;
      blockManager.PlaneFacts(p);
    }

    /** The logical page of a transaction, and a destination that is not part of the records. */
    ghost predicate Fits(streamId: nat, lpa: bv64, address: PhysicalPageAddress) {
      streamId < |domains| && Packable(lpa) && address !in blockManager.footprint
    }

    ghost predicate MappedTo(k: Key, a: PageAddr)
      reads this
    {
      k in model.table && model.table[k].addr == Some(a)
    }

    /** A partial overwrite reads the old page; a full one needs no read. */
    ghost predicate ReadsOldPage(st: Ftl, k: Key, data: Image, before: Option<PageAddr>, after: Option<PageAddr>) {
      && k in st.table
      && after == if st.table[k].bitmap <= data.Keys then before else st.table[k].addr
    }

    ghost predicate WriteFits(tr: TransactionWrite) {
      && Fits(tr.streamId, tr.lpa, tr.physicalAddress) && tr !in blockManager.footprint
      && tr.content.Keys == Bits.Bits(tr.writeSectorsBitmap)
    }

    // ----- user writes -----

    /** Stripe the logical page over the planes of its domain. */
    method AllocatePlaneForUserWrite(streamId: nat, lpa: bv64, address: PhysicalPageAddress)
      requires Static() && streamId < |domains|
      modifies address
      ensures address.Value() == PageAddr(c.home(streamId, Num(lpa)), old(address.blockId), old(address.pageId))
    {
      var ids := domains[streamId].ids;
      ProductsArePositive(ids);
      address.channelId := ids.channels[Num(lpa) % |ids.channels|];
      address.chipId := ids.chips[(Num(lpa) / |ids.channels|) % |ids.chips|];
      address.dieId := ids.dies[(Num(lpa) / (|ids.channels| * |ids.chips|)) % |ids.dies|];
      address.planeId := ids.planes[(Num(lpa) / (|ids.channels| * |ids.chips| * |ids.dies|)) % |ids.planes|];
    }

    /** Invalidate the page a mapped entry points to, counting a read of it first when a partial
        overwrite needs its sectors. */
    method Retire(streamId: nat, was: PhysicalPageAddress, readFirst: bool, ghost k: Key)
      returns (r: Option<FtlError>)
      requires Valid() && streamId == k.stream && was !in blockManager.footprint
      requires k in model.table && model.table[k].addr == Some(was.Value())
      modifies blockManager.footprint, blockManager`device
      ensures r == None && blockManager.Valid()
      ensures HasBlock(old(model.planes), was.Value().plane, was.Value().block)
      ensures InvalidateAt(ReadCounted(old(model.planes), was.Value(), readFirst), k.stream, was.Value())
              == DeviceDone(blockManager.device)
    {
      hide DeviceOk, BlockManager.Valid, MarkAt, InvalidateAt, BlockManager.Region, Live, Tabled, FtlInv, HasBlock;
      MappedPage(k);
      RegionInFootprint(was.Plane());
      RetireWorks(c, model, k, readFirst);
      if readFirst {
        blockManager.MarkBlock(was, ReadStarted);
      }
      r := blockManager.InvalidatePageInBlock(streamId, was);
    }

    lemma AllocatedMeans(kind: Kind, stream: nat, ps: Planes, p: PlaneId, r: Option<FtlError>, ps': Planes, a: PageAddr)
      requires Static() && blockManager.AllocatedAt(ps, Slot(kind, stream), p, r, ps', a)
      ensures match AllocateAt(c, ps, Slot(kind, stream), p)
              case NoPage(e) => r == Some(e)
              case GotPage(q, b) => r == None && ps' == q && a == b
    {
      hide AllocateAt;
    }

    lemma Remapping(st: Ftl, ps: Planes, k: Key, a: PageAddr, bitmap: set<nat>, image: Option<Image>)
      ensures var st' := Remap(st, ps, k, a, bitmap, image);
              st'.planes == ps && st'.table == st.table[k := Entry(Some(a), bitmap)] && st'.locked == st.locked
    {
    }

    /** A user write that succeeds leaves the invariant in place. */
    lemma WriteKeeps(st: Ftl, k: Key, data: Image, st': Ftl)
      requires FtlInv(c, st) && k in st.table && st.table[k].addr.Some? && WritePage(c, st, k, data) == Done(st')
      ensures FtlInv(c, st') && st'.locked == st.locked
    {
      hide FtlInv, WritePage, HomeReady;
      WritePageFails(c, st, k, data);
      var st1 := WritePageRefines(c, st, k, data);
    }

    /** The state a user write reaches, from the outcome of its steps. */
    lemma WriteFinished(st: Ftl, k: Key, data: Image, readFirst: bool, ps1: Planes, r: Option<FtlError>, ps2: Planes,
                        a: PageAddr)
      returns (next: Ftl)
      requires Static() && FtlInv(c, st) && k in st.table && st.table[k].addr.Some?
      requires readFirst <==> st.table[k].bitmap * data.Keys != st.table[k].bitmap
      requires var was := st.table[k].addr.value;
               HasBlock(st.planes, was.plane, was.block)
               && InvalidateAt(ReadCounted(st.planes, was, readFirst), k.stream, was) == DeviceDone(ps1)
      requires blockManager.AllocatedAt(ps1, Slot(Data, k.stream), c.home(k.stream, k.lpa), r, ps2, a)
      ensures Ended(WritePage(c, st, k, data), r, next)
      ensures r == None ==>
                && FtlInv(c, next) && next.locked == st.locked && next.planes == ps2
                && next.table == st.table[k := Entry(Some(a), data.Keys + st.table[k].bitmap)]
    {
      hide FtlInv, WritePage, InvalidateAt, AllocateAt, MergedImage, Remap, Ended, ReadCounted,
           BlockManager.AllocatedAt, Static;
      var bitmap := data.Keys + st.table[k].bitmap;
      var image := MergedImage(st, st.table[k].addr.value, st.table[k].bitmap, data);
      next := Remap(st, ps2, k, a, bitmap, Some(image));
      AllocatedMeans(Data, k.stream, ps1, c.home(k.stream, k.lpa), r, ps2, a);
      WriteComposes(c, st, k, data, readFirst, ps1, r, ps2, a);
      if r == None {
        WriteKeeps(st, k, data, next);
        Remapping(st, ps2, k, a, bitmap, Some(image));
      }
    }

    method AllocatePageInPlaneForUserWrite(tr: TransactionWrite) returns (r: Option<FtlError>)
      requires Valid() && WriteFits(tr)
      requires tr.physicalAddress.Plane() == c.home(tr.streamId, Num(tr.lpa))
      modifies blockManager.footprint, blockManager.gcUnit`draws, blockManager`device, Tables(domains)
      modifies this`model, tr, tr.physicalAddress`blockId, tr.physicalAddress`pageId
      ensures Ended(WritePage(c, old(model), Key(tr.streamId, Num(tr.lpa)), tr.content), r, model)
      ensures r == None ==>
                && Valid() && tr.ppa == ToPpa(g, tr.physicalAddress.Value())
                && MappedTo(Key(tr.streamId, Num(tr.lpa)), tr.physicalAddress.Value())
                && ReadsOldPage(old(model), Key(tr.streamId, Num(tr.lpa)), tr.content, old(tr.relatedRead),
                                tr.relatedRead)
      ensures r == None ==>
                var k := Key(tr.streamId, Num(tr.lpa));
                && k in old(model).table && old(model).table[k].addr.Some?
                && (old(model).table[k].bitmap <= tr.content.Keys ==> tr.relatedRead == old(tr.relatedRead))
                && (!(old(model).table[k].bitmap <= tr.content.Keys) ==> tr.relatedRead == old(model).table[k].addr)
    {
      hide Num, WritePage, ToPpa, ToAddress, PpaIn, StandsFor, Ended;
      ghost var k := Key(tr.streamId, Num(tr.lpa));
      Separate();
      var prev, was;
      r, prev, was := PageToOverwrite(tr.streamId, tr.lpa, k, tr.content);
      if r.Some? {
        return;
      }
      ghost var next;
      var readFirst, ppa;
      r, ppa, readFirst, next :=
        Overwrite(tr.streamId, tr.lpa, tr.writeSectorsBitmap, tr.physicalAddress, was, prev, k, tr.content);
      Record(tr, ppa, readFirst, was.Value());
      model := next;
    }

    /** The page a user write replaces and its bitmap, or the error the write ends with. */
    method PageToOverwrite(streamId: nat, lpa: bv64, ghost k: Key, ghost data: Image)
      returns (r: Option<FtlError>, prev: bv64, was: PhysicalPageAddress)
      requires Valid() && streamId < |domains| && Packable(lpa) && k == Key(streamId, Num(lpa))
      modifies Tables(domains)
      ensures Valid() && fresh(was)
      ensures r.Some? ==> Ended(WritePage(c, model, k, data), r, model)
      ensures r == None ==> k in model.table && model.table[k] == Entry(Some(was.Value()), Bits.Bits(prev))
    {
      hide Num, WritePage, ToPpa, ToAddress, PpaIn, StandsFor, Ended;
      var found, oldPpa;
      found, oldPpa, prev, was := OldPage(streamId, lpa);
      WriteUnmapped(c, model, k, data, model);
      if !found {
        return Some(EntryNotValid), prev, was;
      }
      // The code has no guard against NO_VALUE; its plane lookup then leaves the device.
      if was.Plane() !in blockManager.planes {
        return Some(AddressOutOfDevice), prev, was;
      }
      r := None;
    }

    /** Fill in the transaction. */
    method Record(tr: TransactionWrite, ppa: nat, readFirst: bool, was: PageAddr)
      modifies tr
      ensures tr.ppa == ppa && tr.relatedRead == if readFirst then Some(was) else old(tr.relatedRead)
    {
      if readFirst {
        tr.relatedRead := Some(was);
      }
      tr.ppa := ppa;
    }

    lemma Separate()
      requires Valid()
      ensures Apart()
    {
    }

    /** The rest of a user write, once the old page is known; `next` is the state reached. */
    method Overwrite(streamId: nat, lpa: bv64, write: bv64, address: PhysicalPageAddress, was: PhysicalPageAddress,
                     prev: bv64, ghost k: Key, ghost data: Image)
      returns (r: Option<FtlError>, ppa: nat, readFirst: bool, ghost next: Ftl)
      requires Valid() && Fits(streamId, lpa, address) && was !in blockManager.footprint && was != address
      requires k == Key(streamId, Num(lpa)) && address.Plane() == c.home(k.stream, k.lpa)
      requires k in model.table && model.table[k] == Entry(Some(was.Value()), Bits.Bits(prev))
      requires data.Keys == Bits.Bits(write)
      modifies blockManager.footprint, blockManager.gcUnit`draws, blockManager`device, Tables(domains)
      modifies address`blockId, address`pageId
      ensures Ended(WritePage(c, old(model), k, data), r, next)
      ensures readFirst <==> !(Bits.Bits(prev) <= Bits.Bits(write))
      ensures r == None ==>
                && StandsFor(next) && ppa == ToPpa(g, address.Value())
                && k in next.table && next.table[k].addr == Some(address.Value())
    {
      hide Num, FtlInv, WritePage, BlockManager.Valid, Tabled, ToPpa, BlockManager.AllocatedAt,
           Ended, Static, LocksAgree, InvalidateAt, Bits.Bits, HasBlock, ReadCounted;
      ghost var st := model;
      HomeExists(k);
      var intersection := prev & write;
      WordsAsSets(prev, write);
      readFirst := intersection != prev;
      r := Retire(streamId, was, readFirst, k);
      ghost var ps1 := blockManager.device;
      r, ppa := Place(Data, streamId, lpa, write | prev, address, st.table);
      next := WriteFinished(st, k, data, readFirst, ps1, r, blockManager.device, address.Value());
    }

    // ----- writes of garbage collection -----

    ghost predicate GcFits(tr: TransactionWrite)
      reads tr.physicalAddress
    {
      && Fits(tr.streamId, tr.lpa, tr.physicalAddress) && tr !in blockManager.footprint
      && tr.physicalAddress.Plane() in blockManager.planes
    }

    lemma GcUnmapped(st: Ftl, k: Key, p: PlaneId, sectors: set<nat>, st': Ftl)
      ensures k !in st.table ==> Ended(GcWrite(c, st, k, p, sectors), Some(EntryNotValid), st')
      ensures k in st.table && (st.table[k].addr == None || !(st.table[k].bitmap <= sectors)) ==>
                Ended(GcWrite(c, st, k, p, sectors), Some(BadGcWrite), st')
    {
      hide Relocate;
      if k in st.table { SetCovers(st.table[k].bitmap, sectors); }
    }

    lemma GcFinished(st: Ftl, k: Key, p: PlaneId, sectors: set<nat>, ps1: Planes, r: Option<FtlError>, ps2: Planes,
                     a: PageAddr)
      returns (next: Ftl)
      requires Static() && FtlInv(c, st) && k in st.table && st.table[k].addr.Some? && st.table[k].bitmap <= sectors
      requires p in st.planes && InvalidateAt(st.planes, k.stream, st.table[k].addr.value) == DeviceDone(ps1)
      requires blockManager.AllocatedAt(ps1, Slot(Gc, k.stream), p, r, ps2, a)
      ensures Ended(GcWrite(c, st, k, p, sectors), r, next)
      ensures r == None ==>
                && FtlInv(c, next) && next.locked == st.locked && next.planes == ps2
                && next.table == st.table[k := Entry(Some(a), sectors + st.table[k].bitmap)]
    {
      hide FtlInv, InvalidateAt, AllocateAt, Remap, Relocate, BlockManager.AllocatedAt, Static, CanAllocateAt;
      var was, prev := st.table[k].addr.value, st.table[k].bitmap;
      SetCovers(prev, sectors);
      var image := View(st.store, was, prev);
      next := Remap(st, ps2, k, a, sectors + prev, Some(image));
      AllocatedMeans(Gc, k.stream, ps1, p, r, ps2, a);
      RelocationComposes(c, st, st.planes, k, Gc, p, sectors + prev, image, ps1, r, ps2, a);
      if r == None {
        GcWriteFails(c, st, k, p, sectors);
        var st' := GcWriteRefines(c, st, k, p, sectors);
        Remapping(st, ps2, k, a, sectors + prev, Some(image));
      }
    }

    method AllocatePageInPlaneForGCWrite(tr: TransactionWrite) returns (r: Option<FtlError>)
      requires Valid() && GcFits(tr)
      modifies blockManager.footprint, blockManager.gcUnit`draws, blockManager`device, Tables(domains)
      modifies this`model, tr, tr.physicalAddress`blockId, tr.physicalAddress`pageId
      ensures Ended(GcWrite(c, old(model), Key(tr.streamId, Num(tr.lpa)), old(tr.physicalAddress.Plane()),
                            Bits.Bits(tr.writeSectorsBitmap)), r, model)
      ensures r == None ==>
                && Valid() && tr.ppa == ToPpa(g, tr.physicalAddress.Value())
                && MappedTo(Key(tr.streamId, Num(tr.lpa)), tr.physicalAddress.Value())
    {
      hide Num, GcWrite, ToPpa, ToAddress, PpaIn, StandsFor, Ended, Bits.Bits;
      ghost var k, sectors := Key(tr.streamId, Num(tr.lpa)), Bits.Bits(tr.writeSectorsBitmap);
      GcUnmapped(model, k, tr.physicalAddress.Plane(), sectors, model);
      Separate();
      var found, oldPpa, prev, was := OldPage(tr.streamId, tr.lpa);
      if !found {
        return Some(EntryNotValid);
      }
      if oldPpa == NO_VALUE {
        return Some(BadGcWrite);
      }
      ghost var next;
      var ppa;
      r, ppa, next := MoveOut(tr.streamId, tr.lpa, tr.writeSectorsBitmap, tr.physicalAddress, was, prev, k);
      tr.ppa := ppa;
      model := next;
    }

    /** The rest of a write of garbage collection, once the old page is known. */
    method MoveOut(streamId: nat, lpa: bv64, write: bv64, address: PhysicalPageAddress, was: PhysicalPageAddress,
                   prev: bv64, ghost k: Key)
      returns (r: Option<FtlError>, ppa: nat, ghost next: Ftl)
      requires Valid() && Fits(streamId, lpa, address) && was !in blockManager.footprint && was != address
      requires k == Key(streamId, Num(lpa)) && address.Plane() in blockManager.planes
      requires k in model.table && model.table[k] == Entry(Some(was.Value()), Bits.Bits(prev))
      modifies blockManager.footprint, blockManager.gcUnit`draws, blockManager`device, Tables(domains)
      modifies address`blockId, address`pageId
      ensures Ended(GcWrite(c, old(model), k, old(address.Plane()), Bits.Bits(write)), r, next)
      ensures r == None ==>
                && StandsFor(next) && ppa == ToPpa(g, address.Value())
                && k in next.table && next.table[k].addr == Some(address.Value())
    {
      hide Num, FtlInv, GcWrite, BlockManager.Valid, Tabled, ToPpa, BlockManager.AllocatedAt,
           Ended, Static, LocksAgree, InvalidateAt, Bits.Bits, HasBlock;
      ghost var st, p := model, address.Plane();
      PlaneInModel(p);
      WordsAsSets(prev, write);
      GcUnmapped(st, k, p, Bits.Bits(write), st);
      r := Retire(streamId, was, false, k);
      ghost var ps1 := blockManager.device;
      if prev & write != prev {
        return Some(BadGcWrite), 0, st;
      }
      r, ppa := Place(Gc, streamId, lpa, write | prev, address, st.table);
      next := GcFinished(st, k, p, Bits.Bits(write), ps1, r, blockManager.device, address.Value());
    }

    lemma PlaneInModel(p: PlaneId)
      requires Valid() && p in blockManager.planes
      ensures p in model.planes
    {
      hide BlockManager.Closed, BlockManager.Within, BlockManager.Sound, FtlInv;
    }

    // ----- translation -----

    /** The state a creation reaches, from the outcome of its steps; `r` is the error of the
        allocation. */
    lemma CreateFinished(st: Ftl, k: Key, sectors: set<nat>, r: Option<FtlError>, ps: Planes, a: PageAddr)
      returns (next: Ftl)
      requires Static() && FtlInv(c, st) && k.stream < c.streams
      requires blockManager.AllocatedAt(st.planes, Slot(Data, k.stream), c.home(k.stream, k.lpa), r, ps, a)
      ensures r.Some? ==> Ended(CreateForRead(c, st, k, sectors), r, next)
      ensures r == None && k !in st.table ==> Ended(CreateForRead(c, st, k, sectors), Some(EntryNotValid), next)
      ensures r == None && k in st.table ==>
                && Ended(CreateForRead(c, st, k, sectors), r, next)
                && (FtlInv(c, next) <==> st.table[k].addr == None)
                && next.locked == st.locked && next.planes == ps
                && next.table == st.table[k := Entry(Some(a), sectors)]
    {
      hide FtlInv, AllocateAt, Remap, BlockManager.AllocatedAt, Static;
      next := Remap(st, ps, k, a, sectors, None);
      AllocatedMeans(Data, k.stream, st.planes, c.home(k.stream, k.lpa), r, ps, a);
      Remapping(st, ps, k, a, sectors, None);
      if r == None && k in st.table {
        CreateForReadKeepsExactly(c, st, k, sectors);
      }
    }

    /** Take a page in the home plane and map the logical page to it. The code does not check that
        the entry has no page yet; the layer stays valid exactly if it has none. */
    method OnlineCreateEntryForRead(streamId: nat, lpa: bv64, address: PhysicalPageAddress, sectors: bv64)
      returns (r: Option<FtlError>, ppa: nat)
      requires Valid() && Fits(streamId, lpa, address)
      modifies blockManager.footprint, blockManager.gcUnit`draws, blockManager`device, Tables(domains)
      modifies this`model, address
      ensures Ended(CreateForRead(c, old(model), Key(streamId, Num(lpa)), Bits.Bits(sectors)), r, model)
      ensures r == None ==>
                && (Valid() <==> old(Unmapped(Key(streamId, Num(lpa)))))
                && ppa == ToPpa(g, address.Value()) && MappedTo(Key(streamId, Num(lpa)), address.Value())
    {
      hide Num, CreateForRead, ToPpa, Ended, Bits.Bits, StandsFor, Static;
      ghost var k := Key(streamId, Num(lpa));
      HomeExists(k);
      StaticOf();
      Separate();
      AllocatePlaneForUserWrite(streamId, lpa, address);
      ghost var next;
      r, ppa, next := Create(streamId, lpa, address, sectors, k);
      model := next;
    }

    /** The rest of a creation, once its plane is chosen; `next` is the state reached. */
    method Create(streamId: nat, lpa: bv64, address: PhysicalPageAddress, sectors: bv64, ghost k: Key)
      returns (r: Option<FtlError>, ppa: nat, ghost next: Ftl)
      requires Valid() && Fits(streamId, lpa, address) && k == Key(streamId, Num(lpa))
      requires address.Plane() == c.home(k.stream, k.lpa) && address.Plane() in blockManager.planes
      modifies blockManager.footprint, blockManager.gcUnit`draws, blockManager`device, Tables(domains)
      modifies address`blockId, address`pageId
      ensures Ended(CreateForRead(c, old(model), k, Bits.Bits(sectors)), r, next)
      ensures r == None ==>
                && (StandsFor(next) <==> old(Unmapped(k)))
                && ppa == ToPpa(g, address.Value()) && k in next.table && next.table[k].addr == Some(address.Value())
    {
      hide Num, FtlInv, CreateForRead, BlockManager.Valid, Tabled, ToPpa, BlockManager.AllocatedAt, BlockManager.Region,
           Ended, LocksAgree, Bits.Bits, Static;
      ghost var st := model;
      ppa := 0;
      StreamOf(k);
      RegionInFootprint(address.Plane());
      r := blockManager.AllocateBlockAndPageInPlaneForUserWrite(streamId, address);
      next := CreateFinished(st, k, Bits.Bits(sectors), r, blockManager.device, address.Value());
      if r == None {
        ppa := ConvertAddresstoPPA(address);
        assert domains[streamId].cmt in Tables(domains);
        var ok := UpdateEntry(streamId, lpa, ppa, sectors, st.table, Entry(Some(address.Value()), Bits.Bits(sectors)));
        if !ok {
          r := Some(EntryNotValid);
        }
      }
    }

    lemma StreamOf(k: Key)
      requires Valid() && k.stream < |domains|
      ensures k.stream < c.streams && blockManager.c == c
    {
    }

    /** UpdateMappingInfo of the domain, in the layer. */
    method UpdateEntry(streamId: nat, lpa: bv64, ppa: nat, bitmap: bv64, ghost table: Table, ghost entry: Entry)
      returns (ok: bool)
      requires Static() && streamId < |domains| && Packable(lpa) && Tabled(g, domains, table)
      requires entry.bitmap == Bits.Bits(bitmap)
      requires ppa == match entry.addr case None => NO_VALUE case Some(a) => ToPpa(g, a)
      modifies Tables(domains)
      ensures ok <==> Key(streamId, Num(lpa)) in table
      ensures Tabled(g, domains, if ok then table[Key(streamId, Num(lpa)) := entry] else table)
    {
      hide Tabled, Num, ToPpa, Bits.Bits;
      assert domains[streamId].cmt in Tables(domains);
      ok := domains[streamId].UpdateMappingInfo(lpa, ppa, bitmap, g, domains, streamId, table, entry);
    }

    ghost predicate Unmapped(k: Key)
      reads this
    {
      k in model.table && model.table[k].addr == None
    }

    /** A read with its page known: the read is counted on the page's block. */
    lemma ReadFinished(st: Ftl, st1: Ftl, k: Key, sectors: set<nat>, a: PageAddr, next: Ftl)
      requires k in st1.table && st1.table[k].addr == Some(a) && Reached(st, k, sectors, st1)
      requires MarkedIn(st1, a.plane, a.block, ReadStarted, next)
      ensures Ended(UserRead(c, st, k, sectors), None, next)
      ensures next.table == st1.table
    {
      hide CreateForRead, MarkAt;
    }

    lemma ReadUnmapped(st: Ftl, k: Key, sectors: set<nat>, st': Ftl)
      ensures k !in st.table ==> Ended(UserRead(c, st, k, sectors), Some(EntryNotValid), st')
      ensures forall e, x ::
                k in st.table && st.table[k].addr == None && Ended(CreateForRead(c, st, k, sectors), Some(e), x) ==>
                Ended(UserRead(c, st, k, sectors), Some(e), st')
    {
      hide CreateForRead, MarkAt;
    }

    ghost predicate ReadFits(tr: TransactionRead) {
      Fits(tr.streamId, tr.lpa, tr.physicalAddress) && tr !in blockManager.footprint
    }

    /** The state in which the page of a read is looked up: a new page was created if needed. */
    ghost predicate Reached(st: Ftl, k: Key, sectors: set<nat>, st1: Ftl) {
      && k in st.table
      && if st.table[k].addr == None then CreateForRead(c, st, k, sectors) == Done(st1) else st1 == st
    }

    /** The rest of a read, once its page number is known. */
    method ReadPage(tr: TransactionRead, ppa: nat, ghost st: Ftl, ghost k: Key)
      requires Valid() && ReadFits(tr) && Reached(st, k, Bits.Bits(tr.readSectorsBitmap), model)
      requires k in model.table && model.table[k].addr.Some? && ppa == ToPpa(g, model.table[k].addr.value)
      modifies blockManager.footprint, blockManager`device, this`model, tr, tr.physicalAddress
      ensures Ended(UserRead(c, st, k, Bits.Bits(tr.readSectorsBitmap)), None, model)
      ensures Valid() && tr.physicalAddressDetermined && tr.ppa == ppa == ToPpa(g, tr.physicalAddress.Value())
      ensures MappedTo(k, tr.physicalAddress.Value())
    {
      hide UserRead, ToPpa, ToAddress, StandsFor, Ended, Bits.Bits, Reached, MarkedIn;
      MappedPage(k);
      Separate();
      ghost var st1, a := model, model.table[k].addr.value;
      tr.ppa := ppa;
      var ok := ConvertPPAtoAddress(ppa, tr.physicalAddress);
      MarkBlock(tr.physicalAddress, ReadStarted);
      tr.physicalAddressDetermined := true;
      ReadFinished(st, st1, k, Bits.Bits(tr.readSectorsBitmap), a, model);
    }

    /** TranslateLpaToPpa for a read. */
    method TranslateRead(tr: TransactionRead) returns (r: Option<FtlError>)
      requires Valid() && ReadFits(tr)
      modifies blockManager.footprint, blockManager.gcUnit`draws, blockManager`device, Tables(domains)
      modifies this`model, tr, tr.physicalAddress
      ensures Ended(UserRead(c, old(model), Key(tr.streamId, Num(tr.lpa)), Bits.Bits(tr.readSectorsBitmap)), r, model)
      ensures r == None ==>
                && Valid() && tr.physicalAddressDetermined && tr.ppa == ToPpa(g, tr.physicalAddress.Value())
                && MappedTo(Key(tr.streamId, Num(tr.lpa)), tr.physicalAddress.Value())
                && ReadRaised(old(model).planes, tr.physicalAddress.Value(), model.planes)
    {
      hide Num, UserRead, CreateForRead, ToPpa, ToAddress, StandsFor, Ended, Bits.Bits, ReadRaised;
      ghost var st, k, sectors := model, Key(tr.streamId, Num(tr.lpa)), Bits.Bits(tr.readSectorsBitmap);
      ModelIsSound();
      var found, ppa, prev := Lookup(tr.streamId, tr.lpa);
      if !found {
        ReadUnmapped(st, k, sectors, model);
        return Some(EntryNotValid);
      }
      NoValueMeansUnmapped(k);
      if ppa == NO_VALUE {
        r, ppa := OnlineCreateEntryForRead(tr.streamId, tr.lpa, tr.physicalAddress, tr.readSectorsBitmap);
        if r.Some? {
          ReadUnmapped(st, k, sectors, model);
          return;
        }
        CreatedIs(st, k, sectors, model);
      }
      ReadPage(tr, ppa, st, k);
      ReadIsCounted(st, k, sectors);
      r := None;
    }

    lemma ReadIsCounted(st: Ftl, k: Key, sectors: set<nat>)
      requires FtlInv(c, st) && Ended(UserRead(c, st, k, sectors), None, model)
      ensures k in model.table && model.table[k].addr.Some?
      ensures ReadRaised(st.planes, model.table[k].addr.value, model.planes)
    {
      hide FtlInv, UserRead, ReadRaised;
      ReadRaisesItsBlock(c, st, k, sectors);
    }

    lemma CreatedIs(st: Ftl, k: Key, sectors: set<nat>, st1: Ftl)
      requires Ended(CreateForRead(c, st, k, sectors), None, st1)
      ensures CreateForRead(c, st, k, sectors) == Done(st1)
    {
      hide CreateForRead;
    }

    /** The plane of an address cannot take another user write now. */
    method StopServicingWrites(address: PhysicalPageAddress) returns (stop: bool)
      requires Valid() && address.Plane() in blockManager.planes
      ensures stop <==> Stopped(c, model.planes, address.Plane())
    {
      hide BlockManager.Valid, FtlInv, Tabled, LocksAgree, PlaneInv, PlaneBookKeeping.Value;
      blockManager.PlaneFacts(address.Plane());
      PlaneInModel(address.Plane());
      stop := blockManager.gcUnit.StopServicingWrites(blockManager.planes[address.Plane()]);
    }

    /** TranslateLpaToPpa for a write: None when the plane is short of free blocks. */
    method TranslateWrite(tr: TransactionWrite) returns (served: bool, r: Option<FtlError>)
      requires Valid() && WriteFits(tr)
      modifies blockManager.footprint, blockManager.gcUnit`draws, blockManager`device, Tables(domains)
      modifies this`model, tr, tr.physicalAddress
      ensures served ==> Ended(UserWrite(c, old(model), Key(tr.streamId, Num(tr.lpa)), tr.content), r, model)
      ensures served && r == None ==>
                && Valid() && tr.physicalAddressDetermined && tr.ppa == ToPpa(g, tr.physicalAddress.Value())
                && MappedTo(Key(tr.streamId, Num(tr.lpa)), tr.physicalAddress.Value())
      ensures !served ==>
                && UserWrite(c, old(model), Key(tr.streamId, Num(tr.lpa)), tr.content) == Refused
                && r == None && model == old(model) && Valid()
    {
      hide Num, UserWrite, WritePage, ToPpa, ToAddress, PpaIn, StandsFor, Ended, Bits.Bits, Stopped;
      ghost var st, k := model, Key(tr.streamId, Num(tr.lpa));
      var found, stop := Admit(tr.streamId, tr.lpa, tr.physicalAddress);
      if !found {
        UserWriteUnmapped(st, k, tr.content, model);
        return true, Some(EntryNotValid);
      }
      if stop {
        UserWriteRefused(st, k, tr.content);
        return false, None;
      }
      r := AllocatePageInPlaneForUserWrite(tr);
      UserWriteAdmitted(st, k, tr.content, r, model);
      if r == None {
        Separate();
      }
      tr.physicalAddressDetermined := true;
      served := true;
    }

    /** Look the logical page up, plan its plane, and ask whether that plane takes user writes. */
    method Admit(streamId: nat, lpa: bv64, address: PhysicalPageAddress) returns (found: bool, stop: bool)
      requires Valid() && Fits(streamId, lpa, address)
      modifies Tables(domains), address
      ensures Valid() && (found <==> Key(streamId, Num(lpa)) in model.table)
      ensures found ==>
                && address.Plane() == c.home(streamId, Num(lpa))
                && (stop <==> Stopped(c, model.planes, c.home(streamId, Num(lpa))))
    {
      hide Num, ToPpa, PpaIn, StandsFor, Stopped, Static;
      ghost var k := Key(streamId, Num(lpa));
      stop := false;
      Separate();
      var ppa, prev;
      found, ppa, prev := Lookup(streamId, lpa);
      if found {
        HomeExists(k);
        StaticOf();
        AllocatePlaneForUserWrite(streamId, lpa, address);
        stop := StopServicingWrites(address);
      }
    }

    lemma StaticOf()
      requires Valid()
      ensures Static()
    {
    }

    lemma UserWriteUnmapped(st: Ftl, k: Key, data: Image, st': Ftl)
      requires k !in st.table
      ensures Ended(UserWrite(c, st, k, data), Some(EntryNotValid), st')
    {
      hide WritePage, Stopped;
    }

    lemma UserWriteRefused(st: Ftl, k: Key, data: Image)
      requires k in st.table && Stopped(c, st.planes, c.home(k.stream, k.lpa))
      ensures UserWrite(c, st, k, data) == Refused
    {
      hide WritePage, Stopped;
    }

    lemma UserWriteAdmitted(st: Ftl, k: Key, data: Image, r: Option<FtlError>, st': Ftl)
      requires k in st.table && !Stopped(c, st.planes, c.home(k.stream, k.lpa))
               && Ended(WritePage(c, st, k, data), r, st')
      ensures Ended(UserWrite(c, st, k, data), r, st')
    {
      hide WritePage, Stopped;
    }

    // ----- barriers -----

    method SetBarrierForLPA(streamId: nat, lpa: nat) returns (r: Option<FtlError>)
      requires Valid() && streamId < |domains|
      modifies domains[streamId], this`model
      ensures Ended(LockKey(old(model), Key(streamId, lpa)), r, model)
      ensures Valid() && (r.Some? ==> model == old(model))
    {
      hide BlockManager.Valid, FtlInv, Tabled, Static;
      if lpa in domains[streamId].lockedLpa {
        return Some(AlreadyLocked);
      }
      domains[streamId].lockedLpa := domains[streamId].lockedLpa + {lpa};
      LocksDoNotMatter(c, model, model.locked + {Key(streamId, lpa)});
      model := model.(locked := model.locked + {Key(streamId, lpa)});
      r := None;
    }

    /** The release of the transactions waiting behind the barrier is not part of the source. */
    method RemoveBarrierForLPA(streamId: nat, lpa: nat) returns (r: Option<FtlError>)
      requires Valid() && streamId < |domains|
      modifies domains[streamId], this`model
      ensures Ended(UnlockKey(old(model), Key(streamId, lpa)), r, model)
      ensures Valid() && (r.Some? ==> model == old(model))
    {
      hide BlockManager.Valid, FtlInv, Tabled, Static;
      if lpa !in domains[streamId].lockedLpa {
        return Some(NotLocked);
      }
      domains[streamId].lockedLpa := domains[streamId].lockedLpa - {lpa};
      LocksDoNotMatter(c, model, model.locked - {Key(streamId, lpa)});
      model := model.(locked := model.locked - {Key(streamId, lpa)});
      r := None;
    }

    /** `st1` is `st` with the barrier set over the first n pages of the block. */
    ghost predicate Barred(st: Ftl, p: PlaneId, b: nat, n: nat, st1: Ftl) {
      && HasBlock(st.planes, p, b) && n <= st.planes[p].blocks[b].written
      && BarrierUpTo(st, p, b, n) == Done(st1) && st1 == st.(locked := st1.locked)
    }

    /** The page at hand is valid and the flash names this logical page as its owner. */
    ghost predicate Owned(st: Ftl, a: PageAddr, k: Key) {
      && HasBlock(st.planes, a.plane, a.block) && a.page < st.planes[a.plane].blocks[a.block].written
      && ValidPage(st, a.plane, a.block, a.page) && k == KeyAt(st, a.plane, a.block, a.page)
    }

    /** A page number names one live page only. */
    lemma SameNumberSamePage(k: Key, a: PageAddr, ppa: nat)
      requires Valid() && k in model.table && PpaIn(g, model.table, k) == Some(ppa)
      requires Live(model.planes, a) && a.plane in blockManager.planes
      ensures ppa == ToPpa(g, a) <==> model.table[k].addr == Some(a)
    {
      hide BlockManager.Valid, ToAddress, ToPpa, Tabled, LocksAgree, Live, MapOk, CountsOk;
      LiveInBox(c, g, model.planes, a);
      DecodeEncode(g, a);
      if model.table[k].addr.Some? { MappedPage(k); } else { NoPage(); }
    }

    /** Lock the owner of one valid page, having compared the mapping with the flash. */
    method BarPage(streamId: nat, lpa: bv64, address: PhysicalPageAddress, ghost st: Ftl) returns (r: Option<FtlError>)
      requires Valid() && streamId < |domains| && Packable(lpa) && address.Plane() in blockManager.planes
      requires var a := address.Value();
               Owned(st, a, Key(streamId, Num(lpa))) && Barred(st, a.plane, a.block, a.page, model)
      modifies Tables(domains), domains, this`model
      ensures var a := address.Value();
              && (r == None ==> Valid() && Barred(st, a.plane, a.block, a.page + 1, model))
              && (r.Some? ==> BarrierUpTo(st, a.plane, a.block, a.page + 1) == Failed(r.value))
    {
      hide Num, ToPpa, ToAddress, PpaIn, StandsFor, KeyAt;
      ghost var k, a := Key(streamId, Num(lpa)), address.Value();
      var found, ppa, prev := Lookup(streamId, lpa);
      if !found {
        return Some(EntryNotValid);
      }
      SameNumberSamePage(k, a, ppa);
      if ppa != ConvertAddresstoPPA(address) {
        return Some(MappingMismatch);
      }
      assert domains[streamId] in domains;
      r := SetBarrierForLPA(streamId, Num(lpa));
    }

    /** What the flash reports as the logical page of each live page of the block: the reverse
        lookup belongs to the NAND driver, whose answers are a parameter here. */
    ghost predicate Reports(st: Ftl, p: PlaneId, b: nat, reported: map<PageAddr, bv64>) {
      forall page: nat :: Live(st.planes, PageAddr(p, b, page)) ==> Reported(st, PageAddr(p, b, page), reported)
    }

    ghost predicate Reported(st: Ftl, a: PageAddr, reported: map<PageAddr, bv64>) {
      && a in reported && Packable(reported[a])
      && a in st.owner && Num(reported[a]) == st.owner[a].lpa
    }

    /** The record of a block, in the state. */
    lemma BlockRecord(p: PlaneId, b: nat)
      requires Valid() && HasBlock(model.planes, p, b)
      ensures p in blockManager.planes && b < |blockManager.planes[p].blocks|
      ensures var plane := blockManager.planes[p]; var block := plane.blocks[b];
              && block.Shaped(plane.pagesPerBlock) && block.Value(plane.pagesPerBlock) == model.planes[p].blocks[b]
              && block in blockManager.footprint && model.planes[p].blocks[b].written <= plane.pagesPerBlock
    {
      hide FtlInv, Tabled, LocksAgree, Static, BlockManager.Valid, PlaneBookKeeping.Registered, OpenIds, Ids,
           BlockSlot.Value;
      blockManager.BlockExists(p, b);
      var plane := blockManager.planes[p];
      assert plane.blocks[b] in blockManager.Region(p);
      WrittenInRange(blockManager.c, blockManager.device, p, b);
    }

    lemma WrittenInRange(c: Config, ps: Planes, p: PlaneId, b: nat)
      requires DeviceOk(c, ps) && HasBlock(ps, p, b)
      ensures ps[p].blocks[b].written <= c.pagesPerBlock
    {
      assert PlaneAt(c, ps, p);
      assert BlockOk(c.pagesPerBlock, ps[p].blocks[b]);
    }

    lemma BarredStart(st: Ftl, p: PlaneId, b: nat)
      requires HasBlock(st.planes, p, b)
      ensures Barred(st, p, b, 0, st)
    {
    }

    /** An invalid page is passed over. */
    lemma BarredSkip(st: Ftl, p: PlaneId, b: nat, n: nat, st1: Ftl)
      requires Barred(st, p, b, n, st1) && n < st.planes[p].blocks[b].written && n in st.planes[p].blocks[b].invalid
      ensures Barred(st, p, b, n + 1, st1)
    {
    }

    lemma ValidPageOwner(st: Ftl, p: PlaneId, b: nat, page: nat, reported: map<PageAddr, bv64>)
      requires Valid() && st.table == model.table && st.planes == model.planes && st.owner == model.owner
      requires HasBlock(st.planes, p, b) && page < st.planes[p].blocks[b].written
      requires page !in st.planes[p].blocks[b].invalid && Reports(st, p, b, reported)
      ensures var a, s := PageAddr(p, b, page), st.planes[p].blocks[b].stream;
              && a in reported && Packable(reported[a]) && s < |domains| && Owned(st, a, Key(s, Num(reported[a])))
    {
      hide Num, BlockManager.Valid, Tabled, LocksAgree, FtlInv;
      assert Live(model.planes, PageAddr(p, b, page));
      assert Reported(st, PageAddr(p, b, page), reported);
      ValidPageKey(c, model, p, b, page);
    }

    /** A failure on one page is the failure of the whole barrier. */
    lemma {:induction false} BarrierFails(st: Ftl, p: PlaneId, b: nat, n: nat, m: nat, e: FtlError)
      requires HasBlock(st.planes, p, b) && n <= m && BarrierUpTo(st, p, b, n) == Failed(e)
      ensures BarrierUpTo(st, p, b, m) == Failed(e)
    {
      if n < m { BarrierFails(st, p, b, n, m - 1, e); }
    }

    /** One round of the barrier loop. */
    method BarNext(block: BlockSlot, page: nat, addr: PhysicalPageAddress, reported: map<PageAddr, bv64>, ghost st: Ftl)
      returns (r: Option<FtlError>)
      requires Valid() && addr !in blockManager.footprint
      requires Barred(st, addr.Plane(), addr.blockId, page, model)
               && page < st.planes[addr.Plane()].blocks[addr.blockId].written
      requires Reports(st, addr.Plane(), addr.blockId, reported)
      requires addr.Plane() in blockManager.planes && addr.blockId < |blockManager.planes[addr.Plane()].blocks|
      requires block == blockManager.planes[addr.Plane()].blocks[addr.blockId]
      modifies Tables(domains), domains, this`model, addr`pageId
      ensures r == None ==> Valid() && Barred(st, addr.Plane(), addr.blockId, page + 1, model)
      ensures r.Some? ==> HasBlock(st.planes, addr.Plane(), addr.blockId)
                          && BarrierUpTo(st, addr.Plane(), addr.blockId, page + 1) == Failed(r.value)
    {
      hide Num, StandsFor, Reported, Reports, Owned, BarrierUpTo;
      ghost var p, b := addr.Plane(), addr.blockId;
      Separate();
      BlockRecord(p, b);
      var plane := blockManager.planes[addr.Plane()];
      var valid := block.IsPageValid(page, plane.pagesPerBlock);
      if valid {
        ValidPageOwner(st, p, b, page, reported);
        addr.pageId := page;
        r := BarPage(block.streamId, reported[addr.Value()], addr, st);
      } else {
        BarredSkip(st, p, b, page, model);
        r := None;
      }
    }

    /** Lock every logical page that has its page in the block. */
    method SetBarrierForPhysicalBlock(address: PhysicalPageAddress, reported: map<PageAddr, bv64>)
      returns (r: Option<FtlError>)
      requires Valid() && HasBlock(model.planes, address.Plane(), address.blockId)
      requires Reports(model, address.Plane(), address.blockId, reported)
      modifies Tables(domains), domains, this`model
      ensures Barriers(old(model), address.Plane(), address.blockId, r, model)
      ensures r == None ==> Valid()
    {
      hide Num, StandsFor, Reported, Reports, Barred, BarrierUpTo;
      ghost var st, p, b := model, address.Plane(), address.blockId;
      BlockRecord(p, b);
      Separate();
      var block := blockManager.planes[address.Plane()].blocks[address.blockId];
      var addr := new PhysicalPageAddress();
      addr.SetPlane(address.Plane());
      addr.blockId := address.blockId;
      BarredStart(st, p, b);
      var page := 0;
      while page < block.currentWritePageIndex
        invariant 0 <= page <= block.currentWritePageIndex == st.planes[p].blocks[b].written
        invariant Valid() && Barred(st, p, b, page, model)
        invariant addr.Plane() == p && addr.blockId == b
      {
        r := BarNext(block, page, addr, reported, st);
        if r.Some? {
          BarrierFails(st, p, b, page + 1, st.planes[p].blocks[b].written, r.value);
          return;
        }
        page := page + 1;
      }
      BarredAll(st, p, b, model);
      r := None;
    }

    lemma BarredAll(st: Ftl, p: PlaneId, b: nat, st1: Ftl)
      requires HasBlock(st.planes, p, b) && Barred(st, p, b, st.planes[p].blocks[b].written, st1)
      ensures Barriers(st, p, b, None, st1)
    {
    }

    /** The barrier over the whole block ended with `r` in state `st'`. */
    ghost predicate Barriers(st: Ftl, p: PlaneId, b: nat, r: Option<FtlError>, st': Ftl) {
      HasBlock(st.planes, p, b) && Ended(SetBarrier(st, p, b), r, st')
    }

    // ----- the block manager's operations, in the layer -----

    /** The outcome of marking block `b` of plane `p`. */
    ghost predicate MarkedIn(st: Ftl, p: PlaneId, b: nat, m: Mark, st': Ftl) {
      Ended(FtlModel.MarkBlock(st, p, b, m), None, st')
    }

    /** A transaction counter or collection flag moves; the layer stays valid. */
    method MarkBlock(address: PhysicalPageAddress, m: Mark)
      requires Valid() && HasBlock(model.planes, address.Plane(), address.blockId)
      modifies blockManager.footprint, blockManager`device, this`model
      ensures Valid() && MarkedIn(old(model), old(address.Plane()), old(address.blockId), m, model)
      ensures var p, b := old(address.Plane()), old(address.blockId);
              HasBlock(model.planes, p, b) && MarkTaken(old(model).planes[p].blocks[b], m, model.planes[p].blocks[b])
    {
      hide FtlInv, BlockManager.Valid, Tabled, Static, LocksAgree, BlockManager.Region, MarkAt, HasBlock;
      ghost var st, p, b := model, address.Plane(), address.blockId;
      BlockRecord(p, b);
      RegionInFootprint(p);
      ghost var next := MarkKeepsFtl(c, st, p, b, m);
      blockManager.MarkBlock(address, m);
      model := next;
    }

    /** The outcome of erasing block `b` of plane `p`. */
    ghost predicate ErasedIn(st: Ftl, p: PlaneId, b: nat, st': Ftl) {
      Ended(EraseBlock(c, st, p, b), None, st')
    }

    /** The erase of a fully invalidated block, with the intended credit: the mapping and all
        contents stay, and the layer stays valid. */
    method AddErasedBlockToPoolRepaired(address: PhysicalPageAddress)
      requires Valid() && address.Plane() in model.planes
               && FullyInvalid(c, model.planes[address.Plane()], address.blockId)
      modifies blockManager.footprint, blockManager`device, this`model
      ensures Valid() && ErasedIn(old(model), old(address.Plane()), old(address.blockId), model)
      ensures Contents(model) == old(Contents(model)) && model.table == old(model.table)
    {
      hide FtlInv, BlockManager.Valid, Tabled, LocksAgree, BlockManager.Region, EraseAt, Contents;
      ghost var st, p, b := model, address.Plane(), address.blockId;
      assert HasBlock(model.planes, p, b);
      BlockRecord(p, b);
      RegionInFootprint(p);
      ghost var next := EraseBlockRefines(c, st, p, b);
      var r := blockManager.AddErasedBlockToPoolRepaired(address);
      model := next;
    }
  }
}
