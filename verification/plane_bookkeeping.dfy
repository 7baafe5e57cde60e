/** The mutable bookkeeping of one plane: its block records, counters, open blocks and pool.
    `Value` is the plane value the specification functions speak about. */
module PlaneBookkeeping {
  import opened FlashTypes
  import opened FreePool
  import opened PlaneModel
  import opened Marks
  import opened InitialPlanes
  import opened Bits

  class BlockSlot {
    ghost const planeId: PlaneId
    const blockId: nat
    var currentWritePageIndex: nat
    var invalidPageCount: nat
    var invalidPageBitmap: seq<bv64>
    var eraseCount: nat
    var streamId: nat
    var ongoingUserReadCnt: int
    var ongoingUserProgramCnt: int
    var hasOngoingGc: bool

    ghost function Value(pages: nat): Block
      reads this
    {
      Block(currentWritePageIndex, InvalidPages(invalidPageBitmap, pages), invalidPageCount, eraseCount, streamId,
            ongoingUserReadCnt, ongoingUserProgramCnt, hasOngoingGc)
    }

    /** One bitmap word for every 64 pages or part thereof. */
    predicate Shaped(pages: nat)
      reads this
    {
      |invalidPageBitmap| == WordsFor(pages)
    }

    constructor (ghost planeId: PlaneId, blockId: nat, pages: nat)
      ensures this.planeId == planeId && this.blockId == blockId && Shaped(pages)
      ensures Value(pages) == Block(0, {}, 0, 0, NO_STREAM, 0, 0, false)
    {
      this.planeId := planeId;
      this.blockId := blockId;
      currentWritePageIndex, invalidPageCount, eraseCount := 0, 0, 0;
      streamId := NO_STREAM;
      ongoingUserReadCnt, ongoingUserProgramCnt, hasOngoingGc := 0, 0, false;
      invalidPageBitmap := seq(WordsFor(pages), _ => 0);
      new;
      ClearedIsEmpty(invalidPageBitmap, pages);
    }

    /** Clear the record; the words are zeroed one by one. */
    method Erase(ghost pages: nat)
      modifies this
      ensures Value(pages) == Erased(old(Value(pages)))
      ensures currentWritePageIndex == 0 && invalidPageCount == 0 && eraseCount == old(eraseCount) + 1
      ensures streamId == NO_STREAM && forall i :: 0 <= i < |invalidPageBitmap| ==> invalidPageBitmap[i] == 0
      ensures unchanged(`ongoingUserReadCnt) && unchanged(`ongoingUserProgramCnt) && unchanged(`hasOngoingGc)
      ensures |invalidPageBitmap| == old(|invalidPageBitmap|)
    {
      currentWritePageIndex := 0;
      invalidPageCount := 0;
      eraseCount := eraseCount + 1;
      streamId := NO_STREAM;
      var i := 0;
      while i < |invalidPageBitmap|
        invariant 0 <= i <= |invalidPageBitmap| == old(|invalidPageBitmap|)
        invariant forall j :: 0 <= j < i ==> invalidPageBitmap[j] == 0
        invariant currentWritePageIndex == 0 && invalidPageCount == 0
        invariant eraseCount == old(eraseCount) + 1 && streamId == NO_STREAM
        invariant unchanged(`ongoingUserReadCnt) && unchanged(`ongoingUserProgramCnt) && unchanged(`hasOngoingGc)
      {
        invalidPageBitmap := invalidPageBitmap[i := 0];
        i := i + 1;
      }
      ClearedIsEmpty(invalidPageBitmap, pages);
    }

    /** Hand out the next page; a user write is also counted as an ongoing program. */
    method HandOut(user: bool, ghost pages: nat) returns (page: nat)
      modifies this`currentWritePageIndex, this`ongoingUserProgramCnt
      ensures var b := old(Value(pages));
              && page == b.written
              && Value(pages) == b.(written := page + 1,
                                    ongoingPrograms := if user then b.ongoingPrograms + 1 else b.ongoingPrograms)
    {
      page := currentWritePageIndex;
      currentWritePageIndex := currentWritePageIndex + 1;
      if user {
        ongoingUserProgramCnt := ongoingUserProgramCnt + 1;
      }
    }

    /** Count one more invalid page and set its bit. */
    method MarkInvalid(page: nat, ghost pages: nat)
      requires Shaped(pages) && page < pages
      modifies this`invalidPageCount, this`invalidPageBitmap
      ensures Shaped(pages)
      ensures var b := old(Value(pages));
              Value(pages) == b.(invalid := b.invalid + {page}, invalidCount := b.invalidCount + 1)
    {
      EnoughWords(pages, page);
      SetPageAddsOne(invalidPageBitmap, pages, page);
      invalidPageCount := invalidPageCount + 1;
      invalidPageBitmap := SetPage(invalidPageBitmap, page);
    }

    /** IsPageValid reads the bit of the page, which is its membership in the invalid set. */
    method IsPageValid(page: nat, ghost pages: nat) returns (valid: bool)
      requires Shaped(pages) && page < pages
      ensures valid <==> page !in Value(pages).invalid
    {
      EnoughWords(pages, page);
      valid := PageValid(invalidPageBitmap, page);
    }
  }

  ghost function Values(blocks: seq<BlockSlot>, pages: nat): (r: seq<Block>)
    reads blocks
    ensures |r| == |blocks| && forall i :: 0 <= i < |blocks| ==> r[i] == blocks[i].Value(pages)
  {
    seq(|blocks|, i requires 0 <= i < |blocks| reads blocks => blocks[i].Value(pages))
  }

  /** An entry of the free-block multimap. */
  datatype FreeBlock = FreeBlock(key: nat, block: BlockSlot)

  function Ids(pool: seq<FreeBlock>): (r: seq<PoolEntry>)
    ensures |r| == |pool| && forall i :: 0 <= i < |pool| ==> r[i] == PoolEntry(pool[i].key, pool[i].block.blockId)
  {
    seq(|pool|, i requires 0 <= i < |pool| => PoolEntry(pool[i].key, pool[i].block.blockId))
  }

  /** The open block of a slot, from the three vectors. */
  function SlotBlock(data: seq<BlockSlot>, gc: seq<BlockSlot>, translation: seq<BlockSlot>, x: Slot): BlockSlot
    requires x.stream < |data| && x.stream < |gc| && x.stream < |translation|
  {
    match x.kind
    case Data => data[x.stream]
    case Gc => gc[x.stream]
    case Translation => translation[x.stream]
  }

  ghost function OpenIds(n: nat, data: seq<BlockSlot>, gc: seq<BlockSlot>, translation: seq<BlockSlot>): map<Slot, nat>
  {
    map x | x in SlotsBelow(n) && x.stream < |data| && x.stream < |gc| && x.stream < |translation| ::
      SlotBlock(data, gc, translation, x).blockId
  }

  lemma OpenIdsNext(n: nat, data: seq<BlockSlot>, gc: seq<BlockSlot>, translation: seq<BlockSlot>,
                    x: BlockSlot, y: BlockSlot, z: BlockSlot)
    requires |data| == |gc| == |translation| < n
    ensures var s := |data|;
            OpenIds(n, data + [x], gc + [y], translation + [z])
            == OpenIds(n, data, gc, translation)[Slot(Data, s) := x.blockId][Slot(Gc, s) := y.blockId]
                                                [Slot(Translation, s) := z.blockId]
  {
    hide SlotsBelow;
    forall k: Slot | k.stream == |data| ensures k in {Slot(Data, |data|), Slot(Gc, |data|), Slot(Translation, |data|)} {
      match k.kind
      case Data =>
      case Gc =>
      case Translation =>
    }
  }

  lemma OpenIdsUpdate(n: nat, data: seq<BlockSlot>, gc: seq<BlockSlot>, translation: seq<BlockSlot>, x: Slot,
                      b: BlockSlot)
    requires |data| == |gc| == |translation| <= n && x.stream < |data|
    ensures OpenIds(n, if x.kind == Data then data[x.stream := b] else data,
                    if x.kind == Gc then gc[x.stream := b] else gc,
                    if x.kind == Translation then translation[x.stream := b] else translation)
            == OpenIds(n, data, gc, translation)[x := b.blockId]
  {
    hide SlotsBelow;
  }

  /** `v'` is `v` after the slot's open block has handed out page `page`. */
  ghost predicate HandedOut(v: Plane, x: Slot, v': Plane, block: nat, page: nat) {
    && x in v.open && v.open[x] < |v.blocks|
    && v' == WriteOpen(v, x)
    && block == v.open[x] && page == v.blocks[block].written
  }

  /** `v1` is `v` after the block of slot `x` alone has advanced by a page; no counter of the plane
      has moved yet. */
  ghost predicate BlockAdvanced(v: Plane, x: Slot, v1: Plane, block: nat, page: nat) {
    && x in v.open && v.open[x] == block < |v.blocks| && page == v.blocks[block].written
    && var b := v.blocks[block];
       var programs := if x.kind == Data then b.ongoingPrograms + 1 else b.ongoingPrograms;
       v1 == v.(blocks := v.blocks[block := b.(written := page + 1, ongoingPrograms := programs)])
  }

  /** `v'` is `v` after its front pool block `id` has been drawn for the stream. */
  ghost predicate FrontDrawn(v: Plane, stream: nat, id: nat, v': Plane) {
    && v.pool != [] && id == v.pool[0].block < |v.blocks|
    && v' == Drawn(v, stream)
  }

  /** `v'` is `v` after the front of the pool has become the slot's open block. */
  ghost predicate Reopened(v: Plane, x: Slot, v': Plane) {
    && v.pool != [] && v.pool[0].block < |v.blocks|
    && v' == TakeFree(v, x)
  }

  class PlaneBookKeeping {
    ghost const id: PlaneId
    const pagesPerBlock: nat
    const streams: nat
    var totalPagesCount: int
    var freePagesCount: int
    var validPagesCount: int
    var invalidPagesCount: int
    var dataOpenBlocks: seq<BlockSlot>
    var gcOpenBlocks: seq<BlockSlot>
    var translationOpenBlocks: seq<BlockSlot>
    var blockUsageHistory: seq<nat>
    var ongoingEraseBlocks: set<nat>
    const blocks: seq<BlockSlot>
    var freeBlockPool: seq<FreeBlock>

    /** Allocate the block records and file them all in the pool under wear 0. */
    constructor (ghost id: PlaneId, c: Config)
      ensures this.id == id && pagesPerBlock == c.pagesPerBlock && streams == c.streams && |blocks| == c.blocksPerPlane
      ensures Shaped() && |dataOpenBlocks| == 0 && Value() == FreshPlane(c)
      ensures forall i :: 0 <= i < |blocks| ==> fresh(blocks[i])
    {
      hide InvalidPages, Insert, WordsFor;
      var slots: seq<BlockSlot> := [];
      var i := 0;
      while i < c.blocksPerPlane
        invariant |slots| == i <= c.blocksPerPlane
        invariant forall j :: 0 <= j < i ==> fresh(slots[j]) && slots[j].blockId == j && slots[j].planeId == id
        invariant forall j :: 0 <= j < i ==>
                    slots[j].Shaped(c.pagesPerBlock) && slots[j].Value(c.pagesPerBlock) == FRESH_BLOCK
      {
        var b := new BlockSlot(id, i, c.pagesPerBlock);
        slots := slots + [b];
        i := i + 1;
      }
      this.id, pagesPerBlock, streams := id, c.pagesPerBlock, c.streams;
      blocks := slots;
      totalPagesCount, freePagesCount := c.blocksPerPlane * c.pagesPerBlock, c.blocksPerPlane * c.pagesPerBlock;
      validPagesCount, invalidPagesCount := 0, 0;
      dataOpenBlocks, gcOpenBlocks, translationOpenBlocks := [], [], [];
      blockUsageHistory, ongoingEraseBlocks, freeBlockPool := [], {}, [];
      new;
      i := 0;
      while i < c.blocksPerPlane
        invariant 0 <= i <= c.blocksPerPlane && Shaped() && Ids(freeBlockPool) == FreshPool(i)
        invariant forall j :: 0 <= j < |blocks| ==> blocks[j].Value(pagesPerBlock) == FRESH_BLOCK
        invariant dataOpenBlocks == gcOpenBlocks == translationOpenBlocks == []
        invariant totalPagesCount == freePagesCount == c.blocksPerPlane * c.pagesPerBlock
        invariant validPagesCount == invalidPagesCount == 0 && blockUsageHistory == [] && ongoingEraseBlocks == {}
      {
        assert blocks[i].Value(pagesPerBlock) == FRESH_BLOCK;
        InsertIsFifo(FreshPool(i), PoolEntry(0, i));
        AddToFreeBlockPool(blocks[i], true);
        i := i + 1;
      }
      assert Values(blocks, pagesPerBlock) == FreshBlocks(c.blocksPerPlane);
      assert Open() == map[];
    }

    /** Give the next stream its three open blocks. */
    method AppendSlots(x: BlockSlot, y: BlockSlot, z: BlockSlot)
      requires Shaped() && |dataOpenBlocks| < streams && Registered(x) && Registered(y) && Registered(z)
      modifies `dataOpenBlocks, `gcOpenBlocks, `translationOpenBlocks
      ensures Shaped() && |dataOpenBlocks| == old(|dataOpenBlocks|) + 1
      ensures var s := old(|dataOpenBlocks|);
              Value() == old(Value()).(open := old(Value()).open[Slot(Data, s) := x.blockId][Slot(Gc, s) := y.blockId]
                                                               [Slot(Translation, s) := z.blockId])
    {
      hide InvalidPages, Values, Ids, OpenIds;
      OpenIdsNext(streams, dataOpenBlocks, gcOpenBlocks, translationOpenBlocks, x, y, z);
      dataOpenBlocks, gcOpenBlocks := dataOpenBlocks + [x], gcOpenBlocks + [y];
      translationOpenBlocks := translationOpenBlocks + [z];
    }

    /** Open the three blocks of the next stream. */
    method OpenNext() returns (r: Option<FtlError>)
      requires Shaped() && |dataOpenBlocks| < streams
      modifies this, blocks
      ensures r == None <==> |old(Value()).pool| >= 3
      ensures r == None ==>
                && Shaped() && |dataOpenBlocks| == old(|dataOpenBlocks|) + 1 && PoolInRange(old(Value()))
                && Value() == OpenStream(old(Value()), old(|dataOpenBlocks|))
    {
      PoolIsInRange();
      hide Value, Shaped, OpenStream, PoolInRange;
      ghost var v := Value();
      var s := |dataOpenBlocks|;
      var x := GetOneFreeBlock(s);
      if x == None { return Some(EmptyPool); }
      var y := GetOneFreeBlock(s);
      if y == None { return Some(EmptyPool); }
      var z := GetOneFreeBlock(s);
      if z == None { return Some(EmptyPool); }
      ThreeDraws(v, s);
      AppendSlots(x.value, y.value, z.value);
      r := None;
    }

    /** Open three blocks for each stream in turn; the pool must hold that many. */
    method OpenAll() returns (r: Option<FtlError>)
      requires Shaped() && |dataOpenBlocks| == 0
      modifies this, blocks
      ensures r == None <==> 3 * streams <= |old(Value()).pool|
      ensures r == None ==>
                && Shaped() && |dataOpenBlocks| == streams && PoolInRange(old(Value()))
                && Value() == OpenStreams(old(Value()), streams)
    {
      ghost var v := Value();
      PoolIsInRange();
      hide Value, Shaped, TakeFree, OpenStream, PoolInRange;
      var s := 0;
      NoStreamsOpened(v);
      hide OpenStreams;
      while s < streams
        invariant s <= streams && Shaped() && |dataOpenBlocks| == s
        invariant 3 * s <= |v.pool| && PoolInRange(v) && Value() == OpenStreams(v, s)
      {
        r := OpenNext();
        if r != None {
          return;
        }
        NextStreamOpened(v, s);
        s := s + 1;
      }
      r := None;
    }

    lemma PoolIsInRange()
      requires Shaped()
      ensures PoolInRange(Value())
    {
    }

    /** The record at its own index. */
    ghost predicate Registered(b: BlockSlot)
    {
      b.blockId < |blocks| && blocks[b.blockId] == b
    }

    ghost predicate Shaped()
      reads `dataOpenBlocks, `gcOpenBlocks, `translationOpenBlocks, `freeBlockPool, blocks
    {
      && (forall i :: 0 <= i < |blocks| ==>
            blocks[i].blockId == i && blocks[i].planeId == id && blocks[i].Shaped(pagesPerBlock))
      && |dataOpenBlocks| == |gcOpenBlocks| == |translationOpenBlocks| <= streams
      && (forall s :: 0 <= s < |dataOpenBlocks| ==>
            Registered(dataOpenBlocks[s]) && Registered(gcOpenBlocks[s]) && Registered(translationOpenBlocks[s]))
      && (forall i :: 0 <= i < |freeBlockPool| ==> Registered(freeBlockPool[i].block))
    }

    function OpenBlock(x: Slot): BlockSlot
      requires x.stream < |dataOpenBlocks| && x.stream < |gcOpenBlocks| && x.stream < |translationOpenBlocks|
      reads `dataOpenBlocks, `gcOpenBlocks, `translationOpenBlocks
    {
      SlotBlock(dataOpenBlocks, gcOpenBlocks, translationOpenBlocks, x)
    }

    ghost function Open(): map<Slot, nat>
      reads `dataOpenBlocks, `gcOpenBlocks, `translationOpenBlocks
    {
      OpenIds(streams, dataOpenBlocks, gcOpenBlocks, translationOpenBlocks)
    }

    ghost function Value(): Plane
      reads this, blocks
    {
      Plane(totalPagesCount, freePagesCount, validPagesCount, invalidPagesCount, Open(), Ids(freeBlockPool),
            blockUsageHistory, ongoingEraseBlocks, Values(blocks, pagesPerBlock))
    }

    /** Replace the open block of a slot. */
    method SetOpenBlock(x: Slot, b: BlockSlot)
      requires Shaped() && Registered(b) && x.stream < |dataOpenBlocks|
      modifies this`dataOpenBlocks, this`gcOpenBlocks, this`translationOpenBlocks
      ensures Shaped() && |dataOpenBlocks| == old(|dataOpenBlocks|)
      ensures Value() == old(Value()).(open := old(Value()).open[x := b.blockId])
    {
      OpenIdsUpdate(streams, dataOpenBlocks, gcOpenBlocks, translationOpenBlocks, x, b);
      hide OpenIds, Values, Ids, InvalidPages;
      match x.kind
      case Data => dataOpenBlocks := dataOpenBlocks[x.stream := b];
      case Gc => gcOpenBlocks := gcOpenBlocks[x.stream := b];
      case Translation => translationOpenBlocks := translationOpenBlocks[x.stream := b];
    }

    /** Take the front of the pool; an empty pool is the fatal case. */
    method GetOneFreeBlock(stream: nat) returns (r: Option<BlockSlot>)
      requires Shaped()
      modifies this`freeBlockPool, this`blockUsageHistory, blocks
      ensures r == None <==> old(Value()).pool == []
      ensures r == None ==> unchanged(this)
      ensures r.Some? ==>
                && Shaped() && Registered(r.value) && |dataOpenBlocks| == old(|dataOpenBlocks|)
                && FrontDrawn(old(Value()), stream, r.value.blockId, Value())
    {
      if freeBlockPool == [] {
        return None;
      }
      var b := freeBlockPool[0].block;
      assert Registered(b) && b in blocks;
      ghost var pool := Ids(freeBlockPool);
      b.streamId := stream;
      OneBlockChanged(b);
      freeBlockPool := freeBlockPool[1..];
      blockUsageHistory := blockUsageHistory + [b.blockId];
      r := Some(b);
      assert Ids(freeBlockPool) == pool[1..];
      hide InvalidPages, OpenIds, Ids, Values;
    }

    /** File a block in the pool under its wear, or under one key for all. */
    method AddToFreeBlockPool(b: BlockSlot, considerDynamicWl: bool)
      requires Shaped() && Registered(b)
      modifies this`freeBlockPool
      ensures Shaped()
      ensures Ids(freeBlockPool)
              == Insert(old(Ids(freeBlockPool)), PoolEntry(if considerDynamicWl then b.eraseCount else 0, b.blockId))
    {
      hide UpperBound, InvalidPages, BlockSlot.Shaped, Registered;
      var key := if considerDynamicWl then b.eraseCount else 0;
      var k := UpperBound(Ids(freeBlockPool), key);
      freeBlockPool := freeBlockPool[..k] + [FreeBlock(key, b)] + freeBlockPool[k..];
    }

    function FreeBlockCount(): nat
      reads `freeBlockPool
    {
      |freeBlockPool|
    }

    /** CheckBookKeepingCorrectness. */
    method CheckBookKeepingCorrectness() returns (r: Option<FtlError>)
      ensures r == CheckBookKeeping(Value())
      ensures r == Some(InconsistentCounters) <==>
                freePagesCount + validPagesCount + invalidPagesCount != totalPagesCount
      ensures r == None <==>
                freePagesCount + validPagesCount + invalidPagesCount == totalPagesCount && freePagesCount != 0
    {
      var allPagesCnt := freePagesCount + validPagesCount + invalidPagesCount;
      if allPagesCnt != totalPagesCount {
        return Some(InconsistentCounters);
      }
      if freePagesCount == 0 {
        return Some(OutOfFreePages);
      }
      r := None;
    }

    lemma OpenIsRegistered(x: Slot)
      requires Shaped() && x.stream < |dataOpenBlocks|
      ensures x.stream < |dataOpenBlocks| && x.stream < |gcOpenBlocks| && x.stream < |translationOpenBlocks|
      ensures Registered(OpenBlock(x)) && OpenBlock(x) in blocks && OpenBlock(x).Shaped(pagesPerBlock)
      ensures x in Open() && Open()[x] == OpenBlock(x).blockId
      ensures Values(blocks, pagesPerBlock)[OpenBlock(x).blockId] == OpenBlock(x).Value(pagesPerBlock)
      ensures x in Value().open && Value().open[x] == OpenBlock(x).blockId < |Value().blocks|
      ensures Value().blocks[OpenBlock(x).blockId] == OpenBlock(x).Value(pagesPerBlock)
    {
      match x.kind
      case Data => assert Registered(dataOpenBlocks[x.stream]);
      case Gc => assert Registered(gcOpenBlocks[x.stream]);
      case Translation => assert Registered(translationOpenBlocks[x.stream]);
    }

    /** The record of the slot's open block, and its place in the plane's value. */
    lemma OpenRecord(x: Slot)
      requires Shaped() && x.stream < |dataOpenBlocks|
      ensures x.stream < |gcOpenBlocks| && x.stream < |translationOpenBlocks|
      ensures var b := OpenBlock(x);
              && Registered(b) && b in blocks && b.Shaped(pagesPerBlock)
              && x in Value().open && Value().open[x] == b.blockId < |Value().blocks|
              && Value().blocks[b.blockId] == b.Value(pagesPerBlock)
    {
      OpenIsRegistered(x);
      hide Shaped, Value, Values, Open, OpenBlock, Registered;
    }

    /** Changing one block record changes that entry of the value and no other. */
    twostate lemma OneBlockChanged(b: BlockSlot)
      requires old(Shaped()) && Registered(b) && b.Shaped(pagesPerBlock)
      requires forall x :: x in blocks && x != b ==> unchanged(x)
      requires dataOpenBlocks == old(dataOpenBlocks) && gcOpenBlocks == old(gcOpenBlocks)
      requires translationOpenBlocks == old(translationOpenBlocks) && freeBlockPool == old(freeBlockPool)
      ensures Shaped() && Open() == old(Open())
      ensures Values(blocks, pagesPerBlock) == old(Values(blocks, pagesPerBlock))[b.blockId := b.Value(pagesPerBlock)]
    {
      forall i | 0 <= i < |blocks| && i != b.blockId
        ensures blocks[i].Value(pagesPerBlock) == old(blocks[i].Value(pagesPerBlock)) && blocks[i].Shaped(pagesPerBlock)
      {
        assert blocks[i] in blocks && blocks[i] != b;
        assert old(blocks[i].Shaped(pagesPerBlock));
      }
      hide InvalidPages, OpenIds;
    }

    /** Count the next page of a slot's open block as valid and hand it out. */
    method ProgramNext(x: Slot) returns (block: nat, page: nat)
      requires Shaped() && x.stream < |dataOpenBlocks|
      modifies `validPagesCount, `freePagesCount, blocks
      ensures Shaped() && |dataOpenBlocks| == old(|dataOpenBlocks|)
      ensures HandedOut(old(Value()), x, Value(), block, page)
    {
      hide Shaped, HandedOut, Value, BlockAdvanced;
      ghost var v := Value();
      block, page := HandOutOpen(x);
      ghost var v1 := Value();
      CountPage();
      PageHandedOut(v, x, v1, Value(), block, page);
    }

    /** One page more is valid and one less free. */
    method CountPage()
      requires Shaped()
      modifies `validPagesCount, `freePagesCount
      ensures Shaped() && Value() == old(Value()).(valid := old(Value()).valid + 1, free := old(Value()).free - 1)
    {
      hide Shaped, Values, Ids, Open;
      validPagesCount := validPagesCount + 1;
      freePagesCount := freePagesCount - 1;
    }

    /** A block record hands out a page; of the value only that block changes. */
    method Advance(b: BlockSlot, programmed: bool) returns (page: nat)
      requires Shaped() && Registered(b) && b.Shaped(pagesPerBlock)
      modifies b
      ensures Shaped()
      ensures var v := old(Value()); Value() == v.(blocks := v.blocks[b.blockId := b.Value(pagesPerBlock)])
      ensures var w := old(b.Value(pagesPerBlock));
              var programs := if programmed then w.ongoingPrograms + 1 else w.ongoingPrograms;
              page == w.written && b.Value(pagesPerBlock) == w.(written := w.written + 1, ongoingPrograms := programs)
    {
      hide Shaped, Values, Ids, InvalidPages, Open, OpenIds, Registered;
      page := b.HandOut(programmed, pagesPerBlock);
      OneBlockChanged(b);
    }

    /** The slot's open block hands out a page. */
    method HandOutOpen(x: Slot) returns (block: nat, page: nat)
      requires Shaped() && x.stream < |dataOpenBlocks|
      modifies blocks
      ensures Shaped() && |dataOpenBlocks| == old(|dataOpenBlocks|)
      ensures BlockAdvanced(old(Value()), x, Value(), block, page)
    {
      hide Shaped, Value, Registered, OpenBlock, BlockSlot.Shaped, BlockSlot.Value;
      OpenRecord(x);
      var b := OpenBlock(x);
      block := b.blockId;
      page := Advance(b, x.kind == Data);
    }

    lemma PageHandedOut(v: Plane, x: Slot, v1: Plane, v': Plane, block: nat, page: nat)
      requires BlockAdvanced(v, x, v1, block, page) && v' == v1.(valid := v1.valid + 1, free := v1.free - 1)
      ensures HandedOut(v, x, v', block, page)
    {
    }

    /** Replace the open block of a slot by the front of the pool. */
    method Reopen(x: Slot) returns (done: bool)
      requires Shaped() && x.stream < |dataOpenBlocks|
      modifies `freeBlockPool, `blockUsageHistory, `dataOpenBlocks, `gcOpenBlocks, `translationOpenBlocks, blocks
      ensures done <==> old(Value()).pool != []
      ensures done ==> Shaped() && |dataOpenBlocks| == old(|dataOpenBlocks|) && blockUsageHistory != []
      ensures done ==> Reopened(old(Value()), x, Value())
    {
      hide InvalidPages, Values, Ids, OpenIds, Shaped;
      var b := GetOneFreeBlock(x.stream);
      if b == None {
        return false;
      }
      SetOpenBlock(x, b.value);
      done := true;
    }

    /** MarkInvalid with the plane counters and the ownership check. */
    method Invalidate(stream: nat, block: nat, page: nat) returns (r: Option<FtlError>)
      requires Shaped() && block < |blocks| && page < pagesPerBlock
      modifies `validPagesCount, `invalidPagesCount, blocks
      ensures match PlaneModel.Invalidate(old(Value()), stream, block, page)
              case PlaneFailed(e) => r == Some(e)
              case PlaneOkay(pl) => r == None && Shaped() && Value() == pl && |dataOpenBlocks| == old(|dataOpenBlocks|)
    {
      validPagesCount := validPagesCount - 1;
      invalidPagesCount := invalidPagesCount + 1;
      var b := blocks[block];
      if b.streamId != stream {
        return Some(WrongStream);
      }
      b.MarkInvalid(page, pagesPerBlock);
      OneBlockChanged(b);
      r := None;
    }

    /** Erase a block, credit free pages and put it back into the pool. */
    method ReturnBlock(block: nat, credit: int, c: Config)
      requires Shaped() && block < |blocks|
      modifies `freePagesCount, `invalidPagesCount, `freeBlockPool, blocks
      ensures Shaped() && |dataOpenBlocks| == old(|dataOpenBlocks|)
              && Value() == PlaneModel.ReturnBlock(c, old(Value()), block, credit)
    {
      hide InvalidPages, Values, Ids, OpenIds, Insert, Erased;
      BlockIsRegistered(block);
      var b := blocks[block];
      hide Shaped;
      freePagesCount := freePagesCount + credit;
      invalidPagesCount := invalidPagesCount - b.invalidPageCount;
      b.Erase(pagesPerBlock);
      OneBlockChanged(b);
      AddToFreeBlockPool(b, c.dynamicWl);
    }

    lemma BlockIsRegistered(block: nat)
      requires Shaped() && block < |blocks|
      ensures Registered(blocks[block]) && blocks[block].blockId == block && blocks[block] in blocks
      ensures blocks[block].Shaped(pagesPerBlock)
      ensures Values(blocks, pagesPerBlock)[block] == blocks[block].Value(pagesPerBlock)
    {
    }

    method InvalidCount(block: nat) returns (n: nat)
      requires Shaped() && block < |blocks|
      ensures n == Value().blocks[block].invalidCount
    {
      n := blocks[block].invalidPageCount;
    }

    /** One counter or flag of a block record moves. */
    method MarkBlock(block: nat, m: Mark)
      requires Shaped() && block < |blocks|
      modifies blocks
      ensures Shaped() && |dataOpenBlocks| == old(|dataOpenBlocks|)
      ensures Value() == MarkedIn(old(Value()), block, m)
      ensures MarkTaken(old(Value()).blocks[block], m, Value().blocks[block])
    {
      hide InvalidPages, Values, Ids, OpenIds;
      BlockIsRegistered(block);
      var b := blocks[block];
      hide Shaped;
      match m {
        case ReadStarted => b.ongoingUserReadCnt := b.ongoingUserReadCnt + 1;
        case ReadFinished => b.ongoingUserReadCnt := b.ongoingUserReadCnt - 1;
        case ProgramStarted => b.ongoingUserProgramCnt := b.ongoingUserProgramCnt + 1;
        case ProgramFinished => b.ongoingUserProgramCnt := b.ongoingUserProgramCnt - 1;
        case GcStarted => b.hasOngoingGc := true;
        case GcFinished => b.hasOngoingGc := false;
      }
      OneBlockChanged(b);
    }
  }
}
