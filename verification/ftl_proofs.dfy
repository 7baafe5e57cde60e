/** Every step keeps the global invariant and acts on the abstract disk as a plain map. */
module FtlProofs {
  import opened FlashTypes
  import opened PlaneModel
  import opened Marks
  import opened DeviceModel
  import opened FtlModel

  // ----- remapping one key -----

  /** Adding or moving one key changes only the count of the planes concerned. */
  lemma RemapCounts(t: Table, k: Key, e: Entry, p: PlaneId)
    requires e.addr.Some?
    ensures |MappedInto(t[k := e], p)|
            == |MappedInto(t, p)| - (if k in MappedInto(t, p) then 1 else 0)
               + (if e.addr.value.plane == p then 1 else 0)
  {
    hide MappedInto;
    MappedAfter(t, k, e, p);
    SetSwap(MappedInto(t, p), k, e.addr.value.plane == p);
  }

  lemma SetSwap<T>(s: set<T>, k: T, back: bool)
    ensures |s - {k} + (if back then {k} else {})| == |s| - (if k in s then 1 else 0) + (if back then 1 else 0)
  {
    assert k in s ==> s == s - {k} + {k};
    assert k !in s ==> s == s - {k};
    assert s - {k} + {} == s - {k};
  }

  lemma MappedAfter(t: Table, k: Key, e: Entry, p: PlaneId)
    requires e.addr.Some?
    ensures MappedInto(t[k := e], p) == MappedInto(t, p) - {k} + (if e.addr.value.plane == p then {k} else {})
  {
  }

  /** The planes after `was` (when there is one) has been invalidated and the fresh page `a`
      handed out. */
  ghost predicate PageSwap(ps: Planes, stream: nat, was: Option<PageAddr>, a: PageAddr, ps': Planes) {
    && ps'.Keys == ps.Keys
    && a.plane in ps
    && !Programmed(ps, a) && Live(ps', a) && StreamAt(ps', a) == stream
    && (forall x :: Live(ps', x) <==> (Live(ps, x) && Some(x) != was) || x == a)
    && (forall x :: Live(ps, x) && Some(x) != was ==> StreamAt(ps', x) == StreamAt(ps, x))
    && (forall x :: Programmed(ps', x) <==> Programmed(ps, x) || x == a)
    && (forall q :: q in ps ==>
          ps'[q].valid == ps[q].valid - (if was.Some? && q == was.value.plane then 1 else 0)
                          + (if q == a.plane then 1 else 0))
  }

  lemma RemapKeepsMap(c: Config, st: Ftl, ps: Planes, k: Key, a: PageAddr, bitmap: set<nat>, image: Option<Image>)
    requires MapOk(c, st) && k in st.table
    requires PageSwap(st.planes, k.stream, st.table[k].addr, a, ps)
    ensures MapOk(c, Remap(st, ps, k, a, bitmap, image))
  {
    var st' := Remap(st, ps, k, a, bitmap, image);
    assert EntryOk(c, st, k);
    forall k' | k' in st'.table ensures EntryOk(c, st', k') {
      if k' != k { assert EntryOk(c, st, k'); }
    }
    forall x | Live(st'.planes, x) ensures PageOk(st', x) {
      if x != a { assert PageOk(st, x); }
    }
  }

  lemma RemapKeepsCounts(c: Config, st: Ftl, ps: Planes, k: Key, a: PageAddr, bitmap: set<nat>, image: Option<Image>)
    requires CountsOk(st) && k in st.table
    requires PageSwap(st.planes, k.stream, st.table[k].addr, a, ps)
    ensures CountsOk(Remap(st, ps, k, a, bitmap, image))
  {
    var st' := Remap(st, ps, k, a, bitmap, image);
    forall p | p in st'.planes ensures st'.planes[p].valid == |MappedInto(st'.table, p)| {
      RemapCounts(st.table, k, Entry(Some(a), bitmap), p);
    }
  }

  lemma RemapKeepsImage(c: Config, st: Ftl, ps: Planes, k: Key, a: PageAddr, bitmap: set<nat>, image: Option<Image>,
                        k': Key)
    requires MapOk(c, st) && k in st.table && !Programmed(st.planes, a)
    requires k' in st.table && k' != k && st.table[k'].addr.Some?
    ensures ImageOf(Remap(st, ps, k, a, bitmap, image), k') == ImageOf(st, k')
  {
    assert EntryOk(c, st, k');
    assert st.table[k'].addr.value != a;
  }

  /** On the abstract disk, remapping replaces the image of `k` and nothing else. */
  lemma RemapContents(c: Config, st: Ftl, ps: Planes, k: Key, a: PageAddr, bitmap: set<nat>, image: Option<Image>)
    requires MapOk(c, st) && k in st.table && !Programmed(st.planes, a)
    ensures var st' := Remap(st, ps, k, a, bitmap, image);
            Contents(st') == Contents(st)[k := View(st'.store, a, bitmap)]
  {
    var st' := Remap(st, ps, k, a, bitmap, image);
    forall k' | k' in st.table && k' != k && st.table[k'].addr.Some?
      ensures ImageOf(st', k') == ImageOf(st, k')
    {
      RemapKeepsImage(c, st, ps, k, a, bitmap, image, k');
    }
    hide MapOk, View;
  }

  // ----- invalidate, allocate, remap -----

  lemma SwapEffects(ps0: Planes, ps: Planes, was: PageAddr, ps1: Planes, stream: nat, a: PageAddr, ps2: Planes)
    requires SamePages(ps0, ps) && InvalidateEffect(ps, was, ps1) && AllocateAtEffect(ps1, stream, a, ps2)
    requires Live(ps, was)
    ensures PageSwap(ps0, stream, Some(was), a, ps2)
  {
    assert Programmed(ps2, a);
  }

  lemma SameRoom(c: Config, ps: Planes, stream: nat, a: PageAddr, slot: Slot, p: PlaneId)
    requires Live(ps, a) && StreamAt(ps, a) == stream && p in ps
    ensures InvalidateAt(ps, stream, a).DeviceDone?
    ensures CanAllocateAt(c, InvalidateAt(ps, stream, a).planes, slot, p) <==> CanAllocateAt(c, ps, slot, p)
  {
    InvalidateAtPages(ps, stream, a);
    if slot in ps[p].open && ps[p].open[slot] < |ps[p].blocks| {
      InvalidateAtWrites(ps, stream, a, p, ps[p].open[slot]);
    }
  }

  lemma MarkKeepsRoom(c: Config, ps: Planes, q: PlaneId, b: nat, m: Mark, slot: Slot, p: PlaneId)
    requires HasBlock(ps, q, b) && p in ps
    ensures MarkAt(ps, q, b, m).DeviceDone?
    ensures CanAllocateAt(c, MarkAt(ps, q, b, m).planes, slot, p) <==> CanAllocateAt(c, ps, slot, p)
  {
    MarkKeepsWrites(ps, q, b, m, p);
    hide MarkAt;
  }

  lemma MarkKeepsWrites(ps: Planes, q: PlaneId, b: nat, m: Mark, p: PlaneId)
    requires HasBlock(ps, q, b) && p in ps
    ensures MarkAt(ps, q, b, m).DeviceDone?
    ensures var ps' := MarkAt(ps, q, b, m).planes;
            && p in ps' && ps'[p].pool == ps[p].pool && ps'[p].open == ps[p].open
            && |ps'[p].blocks| == |ps[p].blocks|
            && forall x: nat :: x < |ps[p].blocks| ==> ps'[p].blocks[x].written == ps[p].blocks[x].written
  {
  }

  lemma RelocateFails(c: Config, st: Ftl, ps: Planes, k: Key, kind: Kind, p: PlaneId, bitmap: set<nat>, image: Image)
    requires DeviceOk(c, ps) && MapOk(c, st) && SamePages(st.planes, ps)
    requires k in st.table && st.table[k].addr.Some? && k.stream < c.streams
    requires p in ps && !CanAllocateAt(c, ps, Slot(kind, k.stream), p)
    ensures Relocate(c, st, ps, k, kind, p, bitmap, image) == Failed(EmptyPool)
  {
    var was := st.table[k].addr.value;
    assert EntryOk(c, st, k);
    InvalidateAtKeeps(c, ps, k.stream, was);
    SameRoom(c, ps, k.stream, was, Slot(kind, k.stream), p);
    AllocateAtKeeps(c, InvalidateAt(ps, k.stream, was).planes, Slot(kind, k.stream), p);
    hide PlaneInv, MapOk, Invalidate, Allocate;
  }

  /** Relocating a mapped page swaps its physical pages and keeps all plane invariants. */
  lemma RelocateSwaps(c: Config, st: Ftl, ps: Planes, k: Key, kind: Kind, p: PlaneId, bitmap: set<nat>, image: Image)
      returns (a: PageAddr, ps2: Planes)
    requires DeviceOk(c, ps) && MapOk(c, st) && SamePages(st.planes, ps)
    requires k in st.table && st.table[k].addr.Some? && k.stream < c.streams
    requires CanAllocateAt(c, ps, Slot(kind, k.stream), p)
    ensures Relocate(c, st, ps, k, kind, p, bitmap, image) == Done(Remap(st, ps2, k, a, bitmap, Some(image)))
    ensures a.plane == p && DeviceOk(c, ps2)
    ensures PageSwap(st.planes, k.stream, st.table[k].addr, a, ps2)
  {
    var was := st.table[k].addr.value;
    assert EntryOk(c, st, k);
    InvalidateAtPages(ps, k.stream, was);
    InvalidateAtKeeps(c, ps, k.stream, was);
    SameRoom(c, ps, k.stream, was, Slot(kind, k.stream), p);
    var ps1 := InvalidateAt(ps, k.stream, was).planes;
    hide PlaneInv, MapOk, Invalidate, Allocate, InvalidateAt;
    AllocateAtKeeps(c, ps1, Slot(kind, k.stream), p);
    AllocateAtPages(c, ps1, Slot(kind, k.stream), p);
    a, ps2 := AllocateAt(c, ps1, Slot(kind, k.stream), p).addr, AllocateAt(c, ps1, Slot(kind, k.stream), p).planes;
    SwapEffects(st.planes, ps, was, ps1, k.stream, a, ps2);
  }

  // ----- the abstract disk -----

  /** A write overrides the sectors it carries. */
  ghost function DiskWrite(d: Disk, k: Key, data: Image): Disk {
    d[k := (if k in d then d[k] else map[]) + data]
  }

  /** A page read before it was ever written appears with erased sectors. */
  ghost function DiskCreate(d: Disk, k: Key, sectors: set<nat>): Disk {
    d[k := map s | s in sectors :: Erased]
  }

  /** Sectors added by a relocation appear erased; those present keep their values. */
  ghost function DiskPad(d: Disk, k: Key, sectors: set<nat>): Disk {
    d[k := (map s | s in sectors :: Erased) + (if k in d then d[k] else map[])]
  }

  ghost function Padded(image: Image, sectors: set<nat>): Image {
    map s | s in sectors :: if s in image then image[s] else Erased
  }

  lemma StoredView(store: map<PageAddr, Image>, a: PageAddr, sectors: set<nat>, image: Image)
    ensures View(store[a := image], a, sectors) == Padded(image, sectors)
  {
  }

  lemma PaddedView(image: Image, sectors: set<nat>)
    requires image.Keys <= sectors
    ensures Padded(image, sectors) == (map s | s in sectors :: Erased) + image
  {
  }

  lemma SetCovers(small: set<nat>, big: set<nat>)
    ensures small * big == small <==> small <= big
    ensures small <= big ==> big + small == big
  {
    if small * big == small { assert forall x :: x in small ==> x in small * big; }
  }

  lemma SameImages(st: Ftl, st': Ftl)
    requires st'.table == st.table
    requires forall k :: k in st.table && st.table[k].addr.Some? ==> ImageOf(st', k) == ImageOf(st, k)
    ensures Contents(st') == Contents(st)
  {
    hide View;
  }

  lemma MergeIsOverride(st: Ftl, was: PageAddr, prev: set<nat>, data: Image)
    ensures Padded(MergedImage(st, was, prev, data), data.Keys + prev) == View(st.store, was, prev) + data
  {
    var m := MergedImage(st, was, prev, data);
    if prev * data.Keys == prev {
      assert forall s :: s in prev ==> s in prev * data.Keys;
    }
  }

  /** `st'` differs from `st` in the mapping of `k` alone, which now points into plane `p` and
      has the given sector bitmap; every invariant holds. */
  ghost predicate Remapped(c: Config, st: Ftl, k: Key, p: PlaneId, bitmap: set<nat>, st': Ftl)
    requires k in st.table
  {
    && FtlInv(c, st')
    && st'.locked == st.locked
    && st'.planes.Keys == st.planes.Keys
    && st'.table.Keys == st.table.Keys
    && (forall x :: x in st.table && x != k ==> st'.table[x] == st.table[x])
    && st'.table[k].bitmap == bitmap
    && st'.table[k].addr.Some? && st'.table[k].addr.value.plane == p
  }

  lemma FreshPage(ps: Planes, stream: nat, was: Option<PageAddr>, a: PageAddr, ps': Planes)
    requires PageSwap(ps, stream, was, a, ps')
    ensures !Programmed(ps, a) && ps'.Keys == ps.Keys
  {
  }

  /** Storing the fresh page under `k` keeps every invariant and touches no other page. */
  lemma RemapKeeps(c: Config, st: Ftl, ps: Planes, k: Key, a: PageAddr, bitmap: set<nat>, image: Option<Image>)
    requires FtlInv(c, st) && DeviceOk(c, ps) && k in st.table
    requires PageSwap(st.planes, k.stream, st.table[k].addr, a, ps)
    ensures var st' := Remap(st, ps, k, a, bitmap, image);
            Remapped(c, st, k, a.plane, bitmap, st') && Contents(st') == Contents(st)[k := View(st'.store, a, bitmap)]
  {
    hide DeviceOk, MapOk, CountsOk, PageSwap, Contents, View;
    FreshPage(st.planes, k.stream, st.table[k].addr, a, ps);
    RemapKeepsMap(c, st, ps, k, a, bitmap, image);
    RemapKeepsCounts(c, st, ps, k, a, bitmap, image);
    RemapContents(c, st, ps, k, a, bitmap, image);
  }

  /** Relocation keeps the global invariant, stores the image under `k` and touches no other
      logical page. */
  lemma RelocateKeeps(c: Config, st: Ftl, ps: Planes, k: Key, kind: Kind, p: PlaneId, bitmap: set<nat>, image: Image)
      returns (st': Ftl)
    requires FtlInv(c, st) && DeviceOk(c, ps) && SamePages(st.planes, ps)
    requires k in st.table && st.table[k].addr.Some?
    requires CanAllocateAt(c, ps, Slot(kind, k.stream), p)
    ensures Relocate(c, st, ps, k, kind, p, bitmap, image) == Done(st')
    ensures Remapped(c, st, k, p, bitmap, st')
    ensures Contents(st') == Contents(st)[k := Padded(image, bitmap)]
  {
    assert EntryOk(c, st, k);
    hide DeviceOk, MapOk, CountsOk, PageSwap, CanAllocateAt, SamePages, EntryOk;
    var a, ps2 := RelocateSwaps(c, st, ps, k, kind, p, bitmap, image);
    hide Relocate;
    st' := Remap(st, ps2, k, a, bitmap, Some(image));
    RemapKeeps(c, st, ps2, k, a, bitmap, Some(image));
    hide Remapped, Contents;
    StoredView(st.store, a, bitmap, image);
  }
}
