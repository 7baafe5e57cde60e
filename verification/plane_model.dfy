/** Bookkeeping of one plane as a value: the blocks, the counters, the open blocks and the
    free pool, the operations on them, and the invariant they keep. */
module PlaneModel {
  import opened FlashTypes
  import opened FreePool

  datatype Block = Block(
    written: nat,        // current_write_page_index
    invalid: set<nat>,   // the invalid-page bitmap
    invalidCount: nat,
    eraseCount: nat,
    stream: nat,
    ongoingReads: int,          // ongoing user reads
    ongoingPrograms: int,       // ongoing user programs
    gc: bool)

  datatype Plane = Plane(
    total: int,
    free: int,
    valid: int,
    invalid: int,
    open: map<Slot, nat>,
    pool: seq<PoolEntry>,
    history: seq<nat>,
    erasing: set<nat>,
    blocks: seq<Block>)

  // ----- counting -----

  datatype Counts = Counts(free: int, valid: int, invalid: int, erases: int)

  function CountsOf(pages: nat, b: Block): Counts {
    Counts(pages - b.written, b.written - b.invalidCount, b.invalidCount, b.eraseCount)
  }

  /** Page and erase totals over the blocks of a plane. */
  function Tally(pages: nat, blocks: seq<Block>): Counts {
    if blocks == [] then Counts(0, 0, 0, 0)
    else
      var h := CountsOf(pages, blocks[0]);
      var t := Tally(pages, blocks[1..]);
      Counts(h.free + t.free, h.valid + t.valid, h.invalid + t.invalid, h.erases + t.erases)
  }

  lemma {:induction false} TallyUpdate(pages: nat, blocks: seq<Block>, i: nat, b: Block)
    requires i < |blocks|
    ensures Tally(pages, blocks[i := b]).free
            == Tally(pages, blocks).free - CountsOf(pages, blocks[i]).free + CountsOf(pages, b).free
    ensures Tally(pages, blocks[i := b]).valid
            == Tally(pages, blocks).valid - CountsOf(pages, blocks[i]).valid + CountsOf(pages, b).valid
    ensures Tally(pages, blocks[i := b]).invalid
            == Tally(pages, blocks).invalid - CountsOf(pages, blocks[i]).invalid + CountsOf(pages, b).invalid
    ensures Tally(pages, blocks[i := b]).erases
            == Tally(pages, blocks).erases - CountsOf(pages, blocks[i]).erases + CountsOf(pages, b).erases
  {
    if i == 0 {
      assert blocks[i := b][1..] == blocks[1..];
    } else {
      TallyUpdate(pages, blocks[1..], i - 1, b);
      assert blocks[i := b][1..] == blocks[1..][i - 1 := b];
    }
  }

  /** Free, valid and invalid pages together are all the pages of the plane. */
  lemma {:induction false} TallyIsCapacity(pages: nat, blocks: seq<Block>)
    ensures Tally(pages, blocks).free + Tally(pages, blocks).valid + Tally(pages, blocks).invalid
            == |blocks| * pages
  {
    if blocks != [] {
      TallyIsCapacity(pages, blocks[1..]);
    }
  }

  /** Distinct blocks with room left each contribute a free page. */
  lemma {:induction false} TallyCoversOpenBlocks(pages: nat, blocks: seq<Block>, ids: set<nat>)
    requires forall i :: 0 <= i < |blocks| ==> blocks[i].written <= pages
    requires forall i :: i in ids ==> i < |blocks| && blocks[i].written < pages
    ensures Tally(pages, blocks).free >= |ids|
  {
    if blocks == [] {
      assert ids == {};
    } else {
      var n := |blocks|;
      var shorter := blocks[..n - 1];
      TallyCoversOpenBlocks(pages, shorter, ids - {n - 1});
      TallySnoc(pages, shorter, blocks[n - 1]);
      assert shorter + [blocks[n - 1]] == blocks;
      assert n - 1 !in ids ==> ids - {n - 1} == ids;
    }
  }

  lemma {:induction false} TallySnoc(pages: nat, blocks: seq<Block>, b: Block)
    ensures Tally(pages, blocks + [b]).free == Tally(pages, blocks).free + CountsOf(pages, b).free
    ensures Tally(pages, blocks + [b]).valid == Tally(pages, blocks).valid + CountsOf(pages, b).valid
    ensures Tally(pages, blocks + [b]).invalid == Tally(pages, blocks).invalid + CountsOf(pages, b).invalid
    ensures Tally(pages, blocks + [b]).erases == Tally(pages, blocks).erases + CountsOf(pages, b).erases
  {
    if blocks == [] {
      assert blocks + [b] == [b] && [b][1..] == [];
    } else {
      assert (blocks + [b])[1..] == blocks[1..] + [b];
      TallySnoc(pages, blocks[1..], b);
    }
  }

  /** The pages 0 .. n-1. */
  ghost function Below(n: nat): (r: set<nat>)
    ensures forall p: nat :: p in r <==> p < n
  {
    if n == 0 then {} else Below(n - 1) + {n - 1}
  }

  lemma {:induction false} BelowSize(n: nat)
    ensures |Below(n)| == n
  {
    if n > 0 {
      BelowSize(n - 1);
    }
  }

  lemma {:induction false} SubsetSize<T>(a: set<T>, b: set<T>)
    requires a <= b
    ensures |a| <= |b|
    ensures |a| == |b| ==> a == b
  {
    assert b == a + (b - a);
    assert |b| == |a| + |b - a|;
    if |b - a| == 0 { assert b - a == {}; }
  }

  // ----- the invariant -----

  ghost predicate BlockOk(pages: nat, b: Block) {
    && b.written <= pages
    && (forall p :: p in b.invalid ==> p < b.written)
    && b.invalidCount == |b.invalid|
  }

  lemma BlockBounds(pages: nat, b: Block)
    requires BlockOk(pages, b)
    ensures b.invalidCount <= b.written <= pages
    ensures b.invalidCount == b.written ==> b.invalid == Below(b.written)
  {
    BelowSize(b.written);
    SubsetSize(b.invalid, Below(b.written));
  }

  /** Pooled blocks are unwritten and filed under their wear. */
  ghost predicate PoolOk(c: Config, pl: Plane) {
    && Sorted(pl.pool)
    && DistinctBlocks(pl.pool)
    && forall i :: 0 <= i < |pl.pool| ==>
         && pl.pool[i].block < |pl.blocks|
         && pl.blocks[pl.pool[i].block].written == 0
         && pl.pool[i].key == if c.dynamicWl then pl.blocks[pl.pool[i].block].eraseCount else 0
  }

  /** Open blocks are distinct, have room, belong to the stream of their slot and are not in
      the pool. */
  ghost predicate OpenOk(c: Config, pl: Plane) {
    && (forall x, y :: x in pl.open && y in pl.open && pl.open[x] == pl.open[y] ==> x == y)
    && forall x :: x in pl.open ==>
         && pl.open[x] < |pl.blocks|
         && pl.blocks[pl.open[x]].written < c.pagesPerBlock
         && pl.blocks[pl.open[x]].stream == x.stream
         && !InPool(pl.pool, pl.open[x])
  }

  ghost predicate IsOpen(pl: Plane, b: nat) {
    exists x :: x in pl.open && pl.open[x] == b
  }

  ghost predicate CountersOk(c: Config, pl: Plane) {
    var t := Tally(c.pagesPerBlock, pl.blocks);
    && pl.total == c.blocksPerPlane * c.pagesPerBlock
    && pl.free == t.free
    && pl.valid == t.valid
    && pl.invalid == t.invalid
  }

  ghost predicate BlocksOk(c: Config, pl: Plane) {
    forall i :: 0 <= i < |pl.blocks| ==> BlockOk(c.pagesPerBlock, pl.blocks[i])
  }

  /** Every block is free, open or full. */
  ghost predicate Placed(c: Config, pl: Plane, b: nat) {
    b < |pl.blocks| ==> InPool(pl.pool, b) || IsOpen(pl, b) || pl.blocks[b].written == c.pagesPerBlock
  }

  ghost predicate Partitioned(c: Config, pl: Plane) {
    forall b: nat :: Placed(c, pl, b)
  }

  /** The plane invariant for the open-block slots `slots`: exact counters, exact invalid sets,
      and every block in exactly one of free pool (unwritten), open slots (not full) and
      closed (full). */
  ghost predicate PlaneOk(c: Config, pl: Plane, slots: set<Slot>) {
    && GoodConfig(c)
    && |pl.blocks| == c.blocksPerPlane
    && BlocksOk(c, pl)
    && CountersOk(c, pl)
    && PoolOk(c, pl)
    && pl.open.Keys == slots
    && OpenOk(c, pl)
    && Partitioned(c, pl)
  }

  ghost predicate PlaneInv(c: Config, pl: Plane) {
    PlaneOk(c, pl, SlotsBelow(c.streams))
  }

  // ----- operations -----

  /** GetOneFreeBlock for `slot`, stored into that slot. */
  function TakeFree(pl: Plane, slot: Slot): Plane
    requires pl.pool != [] && pl.pool[0].block < |pl.blocks|
  {
    var id := pl.pool[0].block;
    pl.(pool := pl.pool[1..],
        blocks := pl.blocks[id := pl.blocks[id].(stream := slot.stream)],
        open := pl.open[slot := id],
        history := pl.history + [id])
  }

  /** The only state CheckGcRequired changes: the first-in-first-out policy pops the oldest
      used block. */
  function GcCheckEffect(c: Config, pl: Plane): Plane
    requires pl.history != []
  {
    if |pl.pool| < c.gcThreshold && |pl.erasing| < c.maxGc && c.policy == Fifo
    then pl.(history := pl.history[1..]) else pl
  }

  /** CheckBookKeepingCorrectness: the error it would report, if any. */
  function CheckBookKeeping(pl: Plane): Option<FtlError> {
    if pl.free + pl.valid + pl.invalid != pl.total then Some(InconsistentCounters)
    else if pl.free == 0 then Some(OutOfFreePages)
    else None
  }

  datatype AllocResult = Allocated(plane: Plane, block: nat, page: nat) | AllocFailed(error: FtlError)

  /** The page the slot's open block hands out next has been programmed. */
  function WriteOpen(pl: Plane, slot: Slot): Plane
    requires slot in pl.open && pl.open[slot] < |pl.blocks|
  {
    var id := pl.open[slot];
    var b := pl.blocks[id];
    var programs := if slot.kind == Data then b.ongoingPrograms + 1 else b.ongoingPrograms;
    pl.(valid := pl.valid + 1,
        free := pl.free - 1,
        blocks := pl.blocks[id := b.(written := b.written + 1, ongoingPrograms := programs)])
  }

  /** The open block of the slot and the front of the pool are blocks of the plane. */
  predicate AllocReady(pl: Plane, slot: Slot) {
    && slot in pl.open && pl.open[slot] < |pl.blocks|
    && (pl.pool != [] ==> pl.pool[0].block < |pl.blocks|)
  }

  /** The three page allocators, told apart by the kind of the slot. */
  function Allocate(c: Config, pl: Plane, slot: Slot): AllocResult
    requires AllocReady(pl, slot)
  {
    var id := pl.open[slot];
    var page := pl.blocks[id].written;
    var pl1 := WriteOpen(pl, slot);
    if page + 1 == c.pagesPerBlock && pl1.pool == [] then AllocFailed(EmptyPool)
    else
      var pl2 := if page + 1 == c.pagesPerBlock then GcCheckEffect(c, TakeFree(pl1, slot)) else pl1;
      match CheckBookKeeping(pl2)
      case Some(e) => AllocFailed(e)
      case None => Allocated(pl2, id, page)
  }

  datatype PlaneResult = PlaneOkay(plane: Plane) | PlaneFailed(error: FtlError)

  /** InvalidatePageInBlock. */
  function Invalidate(pl: Plane, stream: nat, b: nat, page: nat): PlaneResult
    requires b < |pl.blocks|
  {
    if pl.blocks[b].stream != stream then PlaneFailed(WrongStream)
    else
      var blk := pl.blocks[b];
      PlaneOkay(pl.(valid := pl.valid - 1,
                    invalid := pl.invalid + 1,
                    blocks := pl.blocks[b := blk.(invalid := blk.invalid + {page},
                                                  invalidCount := blk.invalidCount + 1)]))
  }

  function Erased(b: Block): Block {
    b.(written := 0, invalid := {}, invalidCount := 0, eraseCount := b.eraseCount + 1, stream := NO_STREAM)
  }

  /** Return block `b` to the pool, crediting `credit` free pages. */
  function ReturnBlock(c: Config, pl: Plane, b: nat, credit: int): Plane
    requires b < |pl.blocks|
  {
    var blk := Erased(pl.blocks[b]);
    var key := if c.dynamicWl then blk.eraseCount else 0;
    pl.(free := pl.free + credit,
        invalid := pl.invalid - pl.blocks[b].invalidCount,
        blocks := pl.blocks[b := blk],
        pool := Insert(pl.pool, PoolEntry(key, b)))
  }

  /** AddErasedBlockToPool as the code has it: it credits pages_per_block - invalid_page_count. */
  function EraseAsWritten(c: Config, pl: Plane, b: nat): PlaneResult
    requires b < |pl.blocks|
  {
    var pl' := ReturnBlock(c, pl, b, c.pagesPerBlock - pl.blocks[b].invalidCount);
    match CheckBookKeeping(pl')
    case Some(e) => PlaneFailed(e)
    case None => PlaneOkay(pl')
  }

  /** AddErasedBlockToPool with the intended credit: the invalid pages become free. */
  function Erase(c: Config, pl: Plane, b: nat): PlaneResult
    requires b < |pl.blocks|
  {
    var pl' := ReturnBlock(c, pl, b, pl.blocks[b].invalidCount);
    match CheckBookKeeping(pl')
    case Some(e) => PlaneFailed(e)
    case None => PlaneOkay(pl')
  }
}
