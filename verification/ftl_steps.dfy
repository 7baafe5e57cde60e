/** The steps a caller can take, when each one succeeds, and what it does. */
module FtlSteps {
  import opened FlashTypes
  import opened PlaneModel
  import opened PlaneProofs
  import opened Marks
  import opened DeviceModel
  import opened FtlModel
  import opened FtlProofs

  /** The home plane of `k` can hand out a user-write page. */
  ghost predicate HomeReady(c: Config, st: Ftl, k: Key) {
    CanAllocateAt(c, st.planes, Slot(Data, k.stream), c.home(k.stream, k.lpa))
  }

  lemma SamePagesRefl(ps: Planes)
    ensures SamePages(ps, ps)
  {
  }

  /** A user write that the plane has room for overrides the written sectors of its logical
      page, and nothing else; its bitmap becomes the union of both bitmaps; it stays in its
      home plane. No consistency check fires. */
  lemma WritePageRefines(c: Config, st: Ftl, k: Key, data: Image) returns (st': Ftl)
    requires FtlInv(c, st) && k in st.table && st.table[k].addr.Some? && HomeReady(c, st, k)
    ensures WritePage(c, st, k, data) == Done(st')
    ensures Remapped(c, st, k, c.home(k.stream, k.lpa), data.Keys + st.table[k].bitmap, st')
    ensures Contents(st') == DiskWrite(Contents(st), k, data)
  {
    var was := st.table[k].addr.value;
    var prev := st.table[k].bitmap;
    var home := c.home(k.stream, k.lpa);
    var ps := PrepareWrite(c, st, k, data);
    MergeIsOverride(st, was, prev, data);
    hide FtlInv, DeviceOk, Relocate, MergedImage, SamePages, CanAllocateAt, Remapped;
    st' := RelocateKeeps(c, st, ps, k, Data, home, data.Keys + prev, MergedImage(st, was, prev, data));
  }

  /** The planes as the relocation of a user write finds them: after the related read of a
      partial overwrite has been counted. */
  lemma PrepareWrite(c: Config, st: Ftl, k: Key, data: Image) returns (ps: Planes)
    requires FtlInv(c, st) && k in st.table && st.table[k].addr.Some?
    ensures DeviceOk(c, ps) && SamePages(st.planes, ps)
    ensures CanAllocateAt(c, ps, Slot(Data, k.stream), c.home(k.stream, k.lpa)) <==> HomeReady(c, st, k)
    ensures k.stream < c.streams && c.home(k.stream, k.lpa) in ps
    ensures WritePage(c, st, k, data)
            == Relocate(c, st, ps, k, Data, c.home(k.stream, k.lpa), data.Keys + st.table[k].bitmap,
                        MergedImage(st, st.table[k].addr.value, st.table[k].bitmap, data))
  {
    var was := st.table[k].addr.value;
    assert EntryOk(c, st, k);
    hide MapOk, CountsOk, Relocate, MergedImage;
    if st.table[k].bitmap * data.Keys == st.table[k].bitmap {
      ps := st.planes;
    } else {
      MarkAtKeeps(c, st.planes, was.plane, was.block, ReadStarted);
      MarkAtPages(st.planes, was.plane, was.block, ReadStarted);
      MarkKeepsRoom(c, st.planes, was.plane, was.block, ReadStarted, Slot(Data, k.stream), c.home(k.stream, k.lpa));
      ps := MarkAt(st.planes, was.plane, was.block, ReadStarted).planes;
    }
  }

  /** A write to a mapped page fails exactly when its home plane has no page to give. */
  lemma WritePageFails(c: Config, st: Ftl, k: Key, data: Image)
    requires FtlInv(c, st) && k in st.table && st.table[k].addr.Some?
    ensures HomeReady(c, st, k) <==> WritePage(c, st, k, data).Done?
    ensures !HomeReady(c, st, k) <==> WritePage(c, st, k, data) == Failed(EmptyPool)
  {
    if HomeReady(c, st, k) {
      var st' := WritePageRefines(c, st, k, data);
    } else {
      var ps := PrepareWrite(c, st, k, data);
      hide DeviceOk, CountsOk, EntryOk, WritePage, Relocate, SamePages, CanAllocateAt, MergedImage;
      RelocateFails(c, st, ps, k, Data, c.home(k.stream, k.lpa), data.Keys + st.table[k].bitmap,
                    MergedImage(st, st.table[k].addr.value, st.table[k].bitmap, data));
    }
  }

  /** As written, a write to a logical page that holds no physical page decodes NO_VALUE. */
  lemma WriteNeedsMapping(c: Config, st: Ftl, k: Key, data: Image)
    requires FtlInv(c, st)
    ensures WritePage(c, st, k, data) == Failed(AddressOutOfDevice)
            <==> k in st.table && st.table[k].addr == None
  {
    if k in st.table && st.table[k].addr.Some? {
      WritePageFails(c, st, k, data);
    }
    hide FtlInv;
  }

  /** A write that StopServicingWrites lets through never asks an empty pool for a block, when
      at least one concurrent collection is configured; a refused write changes nothing. */
  lemma AdmittedWriteSucceeds(c: Config, st: Ftl, k: Key, data: Image)
    requires FtlInv(c, st) && c.maxGc >= 1
    requires k in st.table && st.table[k].addr.Some?
    ensures Stopped(c, st.planes, c.home(k.stream, k.lpa)) <==> UserWrite(c, st, k, data) == Refused
    ensures !Stopped(c, st.planes, c.home(k.stream, k.lpa)) ==>
              UserWrite(c, st, k, data).Done? && HomeReady(c, st, k)
  {
    var home := c.home(k.stream, k.lpa);
    assert EntryOk(c, st, k);
    if !Stopped(c, st.planes, home) {
      assert PlaneAt(c, st.planes, home);
      PlaneIsReady(c, st.planes[home], SlotsBelow(c.streams), Slot(Data, k.stream));
      hide FtlInv, PlaneInv;
      WritePageFails(c, st, k, data);
    }
  }

  /** Creating a page for a read of an unmapped logical page. */
  lemma CreateForReadRefines(c: Config, st: Ftl, k: Key, sectors: set<nat>) returns (st': Ftl)
    requires FtlInv(c, st) && k in st.table && st.table[k].addr == None && HomeReady(c, st, k)
    ensures CreateForRead(c, st, k, sectors) == Done(st')
    ensures Remapped(c, st, k, c.home(k.stream, k.lpa), sectors, st')
    ensures Contents(st') == DiskCreate(Contents(st), k, sectors)
  {
    assert EntryOk(c, st, k);
    var home := c.home(k.stream, k.lpa);
    var slot := Slot(Data, k.stream);
    AllocateAtKeeps(c, st.planes, slot, home);
    AllocateAtPages(c, st.planes, slot, home);
    var ps, a := AllocateAt(c, st.planes, slot, home).planes, AllocateAt(c, st.planes, slot, home).addr;
    assert PageSwap(st.planes, k.stream, None, a, ps) by { assert Programmed(ps, a); }
    assert a !in st.store;
    st' := Remap(st, ps, k, a, sectors, None);
    hide DeviceOk, MapOk, CountsOk, AllocateAt, PageSwap, CanAllocateAt, AllocateAtEffect;
    RemapKeeps(c, st, ps, k, a, sectors, None);
    assert View(st.store, a, sectors) == map s | s in sectors :: Erased;
    hide Remapped, Contents;
  }

  /** The code does not check that the entry has no page; a page it has would be left live and
      unmapped. So creation keeps the invariant exactly if the entry has none. */
  lemma CreateForReadKeepsExactly(c: Config, st: Ftl, k: Key, sectors: set<nat>)
    requires FtlInv(c, st) && CreateForRead(c, st, k, sectors).Done? && k.stream < c.streams
    ensures k in st.table
    ensures FtlInv(c, CreateForRead(c, st, k, sectors).st) <==> st.table[k].addr == None
  {
    var home, slot := c.home(k.stream, k.lpa), Slot(Data, k.stream);
    var st' := CreateForRead(c, st, k, sectors).st;
    AllocateAtKeeps(c, st.planes, slot, home);
    if st.table[k].addr == None {
      var st1 := CreateForReadRefines(c, st, k, sectors);
    } else {
      var was := st.table[k].addr.value;
      assert EntryOk(c, st, k);
      AllocateAtPages(c, st.planes, slot, home);
      hide AllocateAt, DeviceOk, CountsOk;
      assert Live(st'.planes, was) && !PageOk(st', was);
    }
    hide FtlInv, AllocateAt;
  }

  lemma CreateForReadFails(c: Config, st: Ftl, k: Key, sectors: set<nat>)
    requires FtlInv(c, st) && k in st.table && st.table[k].addr == None && !HomeReady(c, st, k)
    ensures CreateForRead(c, st, k, sectors) == Failed(EmptyPool)
  {
    assert EntryOk(c, st, k);
    AllocateAtKeeps(c, st.planes, Slot(Data, k.stream), c.home(k.stream, k.lpa));
  }

  lemma MarkKeepsFtl(c: Config, st: Ftl, p: PlaneId, b: nat, m: Mark) returns (st': Ftl)
    requires FtlInv(c, st) && HasBlock(st.planes, p, b)
    ensures MarkBlock(st, p, b, m) == Done(st') && FtlInv(c, st') && Contents(st') == Contents(st)
    ensures st' == st.(planes := st'.planes) && st'.planes.Keys == st.planes.Keys
  {
    MarkAtKeeps(c, st.planes, p, b, m);
    MarkAtPages(st.planes, p, b, m);
    st' := MarkBlock(st, p, b, m).st;
    hide MarkAt, DeviceOk, MapOk, CountsOk, SamePages;
    SamePagesKeep(c, st, st');
    SameImages(st, st');
  }

  /** The mapping invariants depend only on which pages are programmed and live. */
  lemma SamePagesKeep(c: Config, st: Ftl, st': Ftl)
    requires MapOk(c, st) && CountsOk(st) && SamePages(st.planes, st'.planes) && st' == st.(planes := st'.planes)
    ensures MapOk(c, st') && CountsOk(st') && st'.planes.Keys == st.planes.Keys
  {
    hide Live, Programmed;
    forall k | k in st'.table ensures EntryOk(c, st', k) { assert EntryOk(c, st, k); }
    forall a | Live(st'.planes, a) ensures PageOk(st', a) { assert PageOk(st, a); }
  }

  /** A read fails exactly when the logical page has no entry, or has to be created while its
      home plane has no page to give. */
  lemma UserReadFails(c: Config, st: Ftl, k: Key, sectors: set<nat>)
    requires FtlInv(c, st)
    ensures UserRead(c, st, k, sectors).Done? <==>
              k in st.table && (st.table[k].addr == None ==> HomeReady(c, st, k))
  {
    if k in st.table && (st.table[k].addr == None ==> HomeReady(c, st, k)) {
      var st' := UserReadRefines(c, st, k, sectors);
    } else if k in st.table {
      CreateForReadFails(c, st, k, sectors);
    }
    hide FtlInv, CreateForRead;
  }

  /** After a read the page is mapped; a page already mapped keeps its place and contents, a
      new one appears in its home plane with erased sectors. */
  lemma UserReadRefines(c: Config, st: Ftl, k: Key, sectors: set<nat>) returns (st': Ftl)
    requires FtlInv(c, st)
    requires k in st.table && (st.table[k].addr == None ==> HomeReady(c, st, k))
    ensures UserRead(c, st, k, sectors) == Done(st')
    ensures st.table[k].addr == None ==>
              && Remapped(c, st, k, c.home(k.stream, k.lpa), sectors, st')
              && Contents(st') == DiskCreate(Contents(st), k, sectors)
    ensures st.table[k].addr.Some? ==>
              && Remapped(c, st, k, st.table[k].addr.value.plane, st.table[k].bitmap, st')
              && st'.table == st.table && Contents(st') == Contents(st)
  {
    var st1 := st;
    if st.table[k].addr == None { st1 := CreateForReadRefines(c, st, k, sectors); }
    var a := st1.table[k].addr.value;
    assert EntryOk(c, st1, k);
    hide MapOk, DeviceOk, CountsOk, CreateForRead, Contents, DiskCreate, EntryOk;
    st' := MarkKeepsFtl(c, st1, a.plane, a.block, ReadStarted);
  }

  /** A relocation by garbage collection never changes a written sector. */
  lemma GcWriteRefines(c: Config, st: Ftl, k: Key, p: PlaneId, sectors: set<nat>) returns (st': Ftl)
    requires FtlInv(c, st)
    requires k in st.table && st.table[k].addr.Some? && st.table[k].bitmap <= sectors
    requires CanAllocateAt(c, st.planes, Slot(Gc, k.stream), p)
    ensures GcWrite(c, st, k, p, sectors) == Done(st')
    ensures Remapped(c, st, k, p, sectors, st')
    ensures Contents(st') == DiskPad(Contents(st), k, sectors)
  {
    var prev := st.table[k].bitmap;
    var image := ImageOf(st, k);
    SetCovers(prev, sectors);
    SamePagesRefl(st.planes);
    hide DeviceOk, MapOk, CountsOk, Relocate, CanAllocateAt, SamePages, Remapped;
    st' := RelocateKeeps(c, st, st.planes, k, Gc, p, sectors, image);
    PaddedView(image, sectors);
    hide View, Padded;
  }

  /** It fails unless the page is mapped, the carried bitmap covers every written sector, and
      the target plane has a page to give. */
  lemma GcWriteFails(c: Config, st: Ftl, k: Key, p: PlaneId, sectors: set<nat>)
    requires FtlInv(c, st) && p in st.planes
    ensures GcWrite(c, st, k, p, sectors).Done? <==>
              && k in st.table && st.table[k].addr.Some?
              && st.table[k].bitmap <= sectors
              && CanAllocateAt(c, st.planes, Slot(Gc, k.stream), p)
  {
    if k in st.table && st.table[k].addr.Some? {
      var prev := st.table[k].bitmap;
      SetCovers(prev, sectors);
      if prev <= sectors && CanAllocateAt(c, st.planes, Slot(Gc, k.stream), p) {
        var st' := GcWriteRefines(c, st, k, p, sectors);
      } else if prev <= sectors {
        SamePagesRefl(st.planes);
        assert EntryOk(c, st, k);
        hide CountsOk, Relocate, CanAllocateAt, SamePages;
        RelocateFails(c, st, st.planes, k, Gc, p, sectors + prev, ImageOf(st, k));
      }
    }
  }

  /** When the carried bitmap is the page's own, the abstract disk does not change at all. */
  lemma PadIsIdentity(st: Ftl, k: Key)
    requires k in st.table && st.table[k].addr.Some?
    ensures DiskPad(Contents(st), k, st.table[k].bitmap) == Contents(st)
  {
    var d := Contents(st);
    assert (map s | s in st.table[k].bitmap :: Erased) + d[k] == d[k];
  }

  lemma ErasedPages(c: Config, st: Ftl, p: PlaneId, b: nat, st': Ftl)
    requires MapOk(c, st) && CountsOk(st) && EraseEffect(st.planes, p, b, st'.planes)
    requires st'.table == st.table
    requires st'.store == map a | a in st.store && !(a.plane == p && a.block == b) :: st.store[a]
    requires st'.owner == map a | a in st.owner && !(a.plane == p && a.block == b) :: st.owner[a]
    ensures MapOk(c, st') && CountsOk(st')
    ensures forall k :: k in st.table && st.table[k].addr.Some? ==> ImageOf(st', k) == ImageOf(st, k)
  {
    forall k | k in st'.table ensures EntryOk(c, st', k) {
      assert EntryOk(c, st, k);
      if st.table[k].addr.Some? { assert Programmed(st'.planes, st.table[k].addr.value); }
    }
    forall a | Live(st'.planes, a) ensures PageOk(st', a) {
      assert PageOk(st, a) && Programmed(st'.planes, a);
    }
    forall k | k in st.table && st.table[k].addr.Some? ensures ImageOf(st', k) == ImageOf(st, k) {
      assert EntryOk(c, st', k);
      assert Programmed(st'.planes, st.table[k].addr.value);
    }
  }

  /** Erasing a fully invalidated block changes neither the mapping nor the contents. */
  lemma EraseBlockRefines(c: Config, st: Ftl, p: PlaneId, b: nat) returns (st': Ftl)
    requires FtlInv(c, st) && p in st.planes && FullyInvalid(c, st.planes[p], b)
    ensures EraseBlock(c, st, p, b) == Done(st') && FtlInv(c, st')
    ensures Contents(st') == Contents(st)
    ensures st'.table == st.table && st'.locked == st.locked && st'.planes.Keys == st.planes.Keys
  {
    assert PlaneAt(c, st.planes, p);
    EraseAtKeeps(c, st.planes, p, b);
    EraseAtPages(c, st.planes, p, b);
    st' := EraseBlock(c, st, p, b).st;
    hide DeviceOk, EraseAt, FullyInvalid, PlaneInv, PlaneAt;
    ErasedPages(c, st, p, b, st');
    hide MapOk, EraseEffect;
    SameImages(st, st');
  }

  lemma LocksDoNotMatter(c: Config, st: Ftl, locked: set<Key>)
    requires FtlInv(c, st)
    ensures FtlInv(c, st.(locked := locked)) && Contents(st.(locked := locked)) == Contents(st)
  {
    var st' := st.(locked := locked);
    forall k | k in st'.table ensures EntryOk(c, st', k) { assert EntryOk(c, st, k); }
    forall a | Live(st'.planes, a) ensures PageOk(st', a) { assert PageOk(st, a); }
    SameImages(st, st');
  }
}
