/** The flash translation layer as a state machine: the logical-to-physical table, the planes,
    what each physical page stores and whom it was written for. */
module FtlModel {
  import opened FlashTypes
  import opened Marks
  import opened DeviceModel

  /** One sector of a flash page: erased, or holding a value. */
  datatype Cell = Erased | Word(value: int)

  /** A page image lists its programmed sectors; all others read as erased. */
  type Image = map<nat, Cell>

  /** A mapping entry. `addr` is None while the entry holds NO_VALUE; `bitmap` is the set of
      sectors written so far. */
  datatype Entry = Entry(addr: Option<PageAddr>, bitmap: set<nat>)

  type Table = map<Key, Entry>

  datatype Ftl = Ftl(
    planes: Planes,
    table: Table,
    locked: set<Key>,
    store: map<PageAddr, Image>,    // what the flash holds
    owner: map<PageAddr, Key>)      // the logical page recorded with each physical page

  // ----- the invariant -----

  /** A mapped entry points to a live page of its own stream that was written for it. */
  ghost predicate EntryOk(c: Config, st: Ftl, k: Key)
    requires k in st.table
  {
    && k.stream < c.streams
    && (st.table[k].addr.Some? ==>
          var a := st.table[k].addr.value;
          Live(st.planes, a) && StreamAt(st.planes, a) == k.stream && a in st.owner && st.owner[a] == k)
  }

  /** A live page is the one its owner's entry points to. */
  ghost predicate PageOk(st: Ftl, a: PageAddr) {
    a in st.owner && st.owner[a] in st.table && st.table[st.owner[a]].addr == Some(a)
  }

  ghost predicate MapOk(c: Config, st: Ftl) {
    && (forall k :: k in st.table ==> EntryOk(c, st, k))
    && (forall a :: Live(st.planes, a) ==> PageOk(st, a))
    && (forall a :: a in st.store ==> Programmed(st.planes, a))
  }

  /** The logical pages mapped into a plane. */
  ghost function MappedInto(t: Table, p: PlaneId): set<Key> {
    set k | k in t && t[k].addr.Some? && t[k].addr.value.plane == p
  }

  ghost predicate CountsOk(st: Ftl) {
    forall p :: p in st.planes ==> st.planes[p].valid == |MappedInto(st.table, p)|
  }

  ghost predicate FtlInv(c: Config, st: Ftl) {
    DeviceOk(c, st.planes) && MapOk(c, st) && CountsOk(st)
  }

  /** The mapping is injective, its image is exactly the live pages, and every mapped page
      lies in a block of the mapped stream. */
  lemma MappingBijection(c: Config, st: Ftl)
    requires FtlInv(c, st)
    ensures forall k, k' :: (k in st.table && k' in st.table && st.table[k].addr.Some?
                              && st.table[k].addr == st.table[k'].addr) ==> k == k'
    ensures forall a :: Live(st.planes, a) <==> (exists k :: k in st.table && st.table[k].addr == Some(a))
    ensures forall k :: k in st.table && st.table[k].addr.Some? ==>
              StreamAt(st.planes, st.table[k].addr.value) == k.stream
  {
    hide DeviceOk;
    forall a | Live(st.planes, a) ensures exists k :: k in st.table && st.table[k].addr == Some(a) {
      assert PageOk(st, a);
    }
    assert forall k :: k in st.table ==> EntryOk(c, st, k);
  }

  // ----- contents -----

  ghost function ReadCell(store: map<PageAddr, Image>, a: PageAddr, sector: nat): Cell {
    if a in store && sector in store[a] then store[a][sector] else Erased
  }

  ghost function View(store: map<PageAddr, Image>, a: PageAddr, sectors: set<nat>): Image {
    map s | s in sectors :: ReadCell(store, a, s)
  }

  /** The abstract disk: each mapped logical page and the sectors written to it. */
  type Disk = map<Key, Image>

  ghost function ImageOf(st: Ftl, k: Key): Image
    requires k in st.table && st.table[k].addr.Some?
  {
    View(st.store, st.table[k].addr.value, st.table[k].bitmap)
  }

  ghost function Contents(st: Ftl): Disk {
    map k | k in st.table && st.table[k].addr.Some? :: ImageOf(st, k)
  }

  /** The page image a user write programs: its own sectors, plus, when it does not cover all
      earlier sectors, the rest as the related read finds them on the old page. */
  ghost function MergedImage(st: Ftl, was: PageAddr, prev: set<nat>, data: Image): Image {
    if prev * data.Keys == prev then data
    else View(st.store, was, prev - data.Keys) + data
  }

  // ----- the mapping steps -----

  datatype Outcome = Done(st: Ftl) | Refused | Failed(error: FtlError)

  /** Record that page `a` was written for `k` with the given image and sector bitmap. */
  ghost function Remap(st: Ftl, planes: Planes, k: Key, a: PageAddr, bitmap: set<nat>, image: Option<Image>): Ftl {
    st.(planes := planes,
        table := st.table[k := Entry(Some(a), bitmap)],
        store := match image case Some(i) => st.store[a := i] case None => st.store,
        owner := st.owner[a := k])
  }

  /** Invalidate the old page, take the next page of the slot in plane `p`, remap. */
  ghost function Relocate(c: Config, st: Ftl, planes: Planes, k: Key, kind: Kind, p: PlaneId, bitmap: set<nat>,
                          image: Image): Outcome
    requires k in st.table && st.table[k].addr.Some?
  {
    match InvalidateAt(planes, k.stream, st.table[k].addr.value)
    case DeviceFailed(e) => Failed(e)
    case DeviceDone(ps1) =>
      match AllocateAt(c, ps1, Slot(kind, k.stream), p)
      case NoPage(e) => Failed(e)
      case GotPage(ps2, a) => Done(Remap(st, ps2, k, a, bitmap, Some(image)))
  }

  /** AllocatePageInPlaneForUserWrite. A partial overwrite first counts a read of the old page.
      The code has no guard against NO_VALUE: it decodes it to an address outside the device. */
  ghost function WritePage(c: Config, st: Ftl, k: Key, data: Image): Outcome {
    if k !in st.table then Failed(EntryNotValid)
    else if st.table[k].addr == None then Failed(AddressOutOfDevice)
    else
      var was := st.table[k].addr.value;
      var prev := st.table[k].bitmap;
      var bitmap := data.Keys + prev;
      var image := MergedImage(st, was, prev, data);
      if prev * data.Keys == prev then
        Relocate(c, st, st.planes, k, Data, c.home(k.stream, k.lpa), bitmap, image)
      else
        match MarkAt(st.planes, was.plane, was.block, ReadStarted)
        case DeviceFailed(e) => Failed(e)
        case DeviceDone(ps) => Relocate(c, st, ps, k, Data, c.home(k.stream, k.lpa), bitmap, image)
  }

  /** StopServicingWrites. */
  ghost predicate Stopped(c: Config, ps: Planes, p: PlaneId) {
    p in ps && |ps[p].pool| < c.maxGc
  }

  /** TranslateLpaToPpa for a write. */
  ghost function UserWrite(c: Config, st: Ftl, k: Key, data: Image): Outcome {
    if k !in st.table then Failed(EntryNotValid)
    else if Stopped(c, st.planes, c.home(k.stream, k.lpa)) then Refused
    else WritePage(c, st, k, data)
  }

  /** OnlineCreateEntryForRead: a page is taken but nothing is programmed. */
  ghost function CreateForRead(c: Config, st: Ftl, k: Key, sectors: set<nat>): Outcome {
    match AllocateAt(c, st.planes, Slot(Data, k.stream), c.home(k.stream, k.lpa))
    case NoPage(e) => Failed(e)
    case GotPage(ps, a) =>
      if k !in st.table then Failed(EntryNotValid) else Done(Remap(st, ps, k, a, sectors, None))
  }

  /** TranslateLpaToPpa for a read. */
  ghost function UserRead(c: Config, st: Ftl, k: Key, sectors: set<nat>): Outcome {
    if k !in st.table then Failed(EntryNotValid)
    else
      match (if st.table[k].addr == None then CreateForRead(c, st, k, sectors) else Done(st))
      case Failed(e) => Failed(e)
      case Refused => Refused
      case Done(st1) =>
        if k in st1.table && st1.table[k].addr.Some? then
          var a := st1.table[k].addr.value;
          (match MarkAt(st1.planes, a.plane, a.block, ReadStarted)
           case DeviceFailed(e) => Failed(e)
           case DeviceDone(ps) => Done(st1.(planes := ps)))
        else Failed(EntryNotValid)
  }

  /** AllocatePageInPlaneForGCWrite into plane `p`; the transaction carries the valid sectors
      of the old page and the bitmap `sectors`. */
  ghost function GcWrite(c: Config, st: Ftl, k: Key, p: PlaneId, sectors: set<nat>): Outcome {
    if k !in st.table then Failed(EntryNotValid)
    else if st.table[k].addr == None then Failed(BadGcWrite)
    else
      var was := st.table[k].addr.value;
      var prev := st.table[k].bitmap;
      if prev * sectors != prev then Failed(BadGcWrite)
      else Relocate(c, st, st.planes, k, Gc, p, sectors + prev, View(st.store, was, prev))
  }

  /** The erase of a block: its pages lose their contents and owners. */
  ghost function EraseBlock(c: Config, st: Ftl, p: PlaneId, b: nat): Outcome {
    match EraseAt(c, st.planes, p, b)
    case DeviceFailed(e) => Failed(e)
    case DeviceDone(ps) =>
      Done(st.(planes := ps,
               store := map a | a in st.store && !(a.plane == p && a.block == b) :: st.store[a],
               owner := map a | a in st.owner && !(a.plane == p && a.block == b) :: st.owner[a]))
  }

  ghost function MarkBlock(st: Ftl, p: PlaneId, b: nat, m: Mark): Outcome {
    match MarkAt(st.planes, p, b, m)
    case DeviceFailed(e) => Failed(e)
    case DeviceDone(ps) => Done(st.(planes := ps))
  }

  /** SetBarrierForLPA. */
  ghost function LockKey(st: Ftl, k: Key): Outcome {
    if k in st.locked then Failed(AlreadyLocked) else Done(st.(locked := st.locked + {k}))
  }

  /** RemoveBarrierForLPA. */
  ghost function UnlockKey(st: Ftl, k: Key): Outcome {
    if k !in st.locked then Failed(NotLocked) else Done(st.(locked := st.locked - {k}))
  }
}
