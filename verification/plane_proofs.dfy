/** What the plane operations keep and change. */
module PlaneProofs {
  import opened FlashTypes
  import opened FreePool
  import opened PlaneModel

  /** A page that holds current data: handed out and not invalidated. */
  ghost predicate LiveIn(pl: Plane, b: nat, p: nat) {
    b < |pl.blocks| && p < pl.blocks[b].written && p !in pl.blocks[b].invalid
  }

  // ----- counters -----

  /** Free pages never drop below the number of open blocks; the counters add up to the
      capacity and stay inside it. */
  lemma CountersAreSafe(c: Config, pl: Plane, slots: set<Slot>)
    requires PlaneOk(c, pl, slots)
    ensures pl.free >= |slots|
    ensures pl.valid >= 0 && pl.invalid >= 0
    ensures pl.free + pl.valid + pl.invalid == pl.total
  {
    var ids := set x | x in slots :: pl.open[x];
    ImageSize(slots, pl.open);
    TallyCoversOpenBlocks(c.pagesPerBlock, pl.blocks, ids);
    TallyIsCapacity(c.pagesPerBlock, pl.blocks);
    TallyIsNatural(c.pagesPerBlock, pl.blocks);
  }

  lemma {:induction false} ImageSize(slots: set<Slot>, open: map<Slot, nat>)
    requires slots <= open.Keys
    requires forall x, y :: x in open && y in open && open[x] == open[y] ==> x == y
    ensures |set x | x in slots :: open[x]| == |slots|
    decreases |slots|
  {
    var image := set x | x in slots :: open[x];
    if slots == {} {
      assert image == {};
    } else {
      var s :| s in slots;
      ImageSize(slots - {s}, open);
      assert image == (set x | x in slots - {s} :: open[x]) + {open[s]};
    }
  }

  lemma {:induction false} TallyIsNatural(pages: nat, blocks: seq<Block>)
    requires forall i :: 0 <= i < |blocks| ==> BlockOk(pages, blocks[i])
    ensures Tally(pages, blocks).valid >= 0 && Tally(pages, blocks).invalid >= 0
    ensures Tally(pages, blocks).free >= 0
  {
    if blocks != [] {
      BlockBounds(pages, blocks[0]);
      TallyIsNatural(pages, blocks[1..]);
    }
  }

  /** Three free pages per stream remain in every reachable plane. */
  lemma FreePagesRemain(c: Config, pl: Plane)
    requires PlaneInv(c, pl)
    ensures pl.free >= 3 * c.streams
    ensures CheckBookKeeping(pl) == None
  {
    CountersAreSafe(c, pl, SlotsBelow(c.streams));
    SlotsBelowSize(c.streams);
  }

  // ----- opening a block -----

  lemma TakeFreeKeepsPool(c: Config, pl: Plane, slot: Slot)
    requires PoolOk(c, pl) && pl.pool != []
    ensures PoolOk(c, TakeFree(pl, slot))
    ensures forall b: nat :: InPool(pl.pool, b) <==> b == pl.pool[0].block || InPool(TakeFree(pl, slot).pool, b)
    ensures !InPool(TakeFree(pl, slot).pool, pl.pool[0].block)
  {
    var pool' := pl.pool[1..];
    assert TakeFree(pl, slot).pool == pool';
    forall b: nat ensures InPool(pl.pool, b) <==> b == pl.pool[0].block || InPool(pool', b) {
      if InPool(pl.pool, b) {
        var i :| 0 <= i < |pl.pool| && pl.pool[i].block == b;
        if i > 0 { assert pool'[i - 1].block == b; }
      }
      if InPool(pool', b) {
        var i :| 0 <= i < |pool'| && pool'[i].block == b;
        assert pl.pool[i + 1].block == b;
      }
    }
  }

  lemma TakeFreeKeepsOpen(c: Config, pl: Plane, slot: Slot)
    requires PoolOk(c, pl) && OpenOk(c, pl) && slot !in pl.open && pl.pool != []
    requires c.pagesPerBlock >= 1
    ensures OpenOk(c, TakeFree(pl, slot))
  {
    var id := pl.pool[0].block;
    var pl' := TakeFree(pl, slot);
    TakeFreeKeepsPool(c, pl, slot);
    assert InPool(pl.pool, id);
    assert forall x :: x in pl.open ==> pl.open[x] != id;
  }

  lemma TakeFreeKeepsPartition(c: Config, pl: Plane, slot: Slot)
    requires PoolOk(c, pl) && Partitioned(c, pl) && slot !in pl.open && pl.pool != []
    ensures Partitioned(c, TakeFree(pl, slot))
  {
    var id := pl.pool[0].block;
    var pl' := TakeFree(pl, slot);
    TakeFreeKeepsPool(c, pl, slot);
    forall b: nat ensures Placed(c, pl', b) {
      assert Placed(c, pl, b);
      if b == id {
        assert slot in pl'.open && pl'.open[slot] == b;
      } else if IsOpen(pl, b) {
        var x :| x in pl.open && pl.open[x] == b;
        assert x in pl'.open && pl'.open[x] == b;
      }
    }
  }

  /** Opening the front block of the pool for a slot that has none keeps the invariant. */
  lemma TakeFreeKeeps(c: Config, pl: Plane, slots: set<Slot>, slot: Slot)
    requires PlaneOk(c, pl, slots) && slot !in slots && pl.pool != []
    ensures PlaneOk(c, TakeFree(pl, slot), slots + {slot})
  {
    var id := pl.pool[0].block;
    var pl' := TakeFree(pl, slot);
    TakeFreeKeepsPool(c, pl, slot);
    TakeFreeKeepsOpen(c, pl, slot);
    TakeFreeKeepsPartition(c, pl, slot);
    TallyUpdate(c.pagesPerBlock, pl.blocks, id, pl'.blocks[id]);
  }

  // ----- allocation -----

  /** A change that leaves pool, slots, owners and wear alone, and only moves the write index
      of unpooled blocks between values below the capacity, keeps every block's place. */
  lemma LayoutCarries(c: Config, pl: Plane, pl': Plane)
    requires PoolOk(c, pl) && OpenOk(c, pl) && Partitioned(c, pl)
    requires pl'.pool == pl.pool && pl'.open == pl.open && |pl'.blocks| == |pl.blocks|
    requires forall b: nat :: b < |pl.blocks| ==>
               && pl'.blocks[b].stream == pl.blocks[b].stream
               && pl'.blocks[b].eraseCount == pl.blocks[b].eraseCount
               && (pl'.blocks[b].written == pl.blocks[b].written
                   || (!InPool(pl.pool, b) && pl.blocks[b].written < c.pagesPerBlock
                       && pl'.blocks[b].written < c.pagesPerBlock))
    ensures PoolOk(c, pl') && OpenOk(c, pl') && Partitioned(c, pl')
  {
    assert forall i :: 0 <= i < |pl.pool| ==> InPool(pl.pool, pl.pool[i].block);
    forall b: nat ensures Placed(c, pl', b) {
      assert Placed(c, pl, b);
      if IsOpen(pl, b) { assert IsOpen(pl', b); }
    }
  }

  /** Handing out a page that leaves room in the open block. */
  lemma WriteOpenKeeps(c: Config, pl: Plane, slots: set<Slot>, slot: Slot)
    requires PlaneOk(c, pl, slots) && slot in slots
    requires pl.blocks[pl.open[slot]].written + 1 < c.pagesPerBlock
    ensures PlaneOk(c, WriteOpen(pl, slot), slots)
  {
    var id := pl.open[slot];
    var pl' := WriteOpen(pl, slot);
    TallyUpdate(c.pagesPerBlock, pl.blocks, id, pl'.blocks[id]);
    LayoutCarries(c, pl, pl');
  }

  /** Handing out the last page closes the block and leaves its slot empty. */
  lemma WriteLastKeeps(c: Config, pl: Plane, slots: set<Slot>, slot: Slot)
    requires PlaneOk(c, pl, slots) && slot in slots
    requires pl.blocks[pl.open[slot]].written + 1 == c.pagesPerBlock
    ensures var pl1 := WriteOpen(pl, slot);
            PlaneOk(c, pl1.(open := pl1.open - {slot}), slots - {slot})
  {
    var id := pl.open[slot];
    var pl1 := WriteOpen(pl, slot);
    var pl' := pl1.(open := pl1.open - {slot});
    TallyUpdate(c.pagesPerBlock, pl.blocks, id, pl'.blocks[id]);
    assert pl'.pool == pl.pool;
    assert forall i :: 0 <= i < |pl.pool| ==> InPool(pl.pool, pl.pool[i].block);
    assert pl'.open.Keys == slots - {slot};
    forall b: nat ensures Placed(c, pl', b) {
      assert Placed(c, pl, b);
      if b != id && IsOpen(pl, b) {
        var x :| x in pl.open && pl.open[x] == b;
        assert x in pl'.open && pl'.open[x] == b;
      }
    }
  }

  lemma TakeFreeReplaces(pl: Plane, slot: Slot)
    requires pl.pool != [] && pl.pool[0].block < |pl.blocks|
    ensures TakeFree(pl.(open := pl.open - {slot}), slot) == TakeFree(pl, slot)
  {
    hide InPool;
    assert TakeFree(pl.(open := pl.open - {slot}), slot).open == TakeFree(pl, slot).open;
  }

  lemma RefillKeeps(c: Config, pl: Plane, slots: set<Slot>, slot: Slot)
    requires PlaneOk(c, pl, slots) && slot in slots && pl.pool != []
    requires pl.blocks[pl.open[slot]].written + 1 == c.pagesPerBlock
    ensures PlaneOk(c, TakeFree(WriteOpen(pl, slot), slot), slots)
  {
    var pl1 := WriteOpen(pl, slot);
    var closed := pl1.(open := pl1.open - {slot});
    assert PlaneOk(c, closed, slots - {slot}) by { WriteLastKeeps(c, pl, slots, slot); }
    assert PlaneOk(c, TakeFree(closed, slot), slots - {slot} + {slot}) by {
      TakeFreeKeeps(c, closed, slots - {slot}, slot);
    }
    TakeFreeReplaces(pl1, slot);
    assert slots - {slot} + {slot} == slots;
  }

  lemma GcCheckEffectKeeps(c: Config, pl: Plane, slots: set<Slot>)
    requires PlaneOk(c, pl, slots) && pl.history != []
    ensures PlaneOk(c, GcCheckEffect(c, pl), slots)
  {
    var pl' := GcCheckEffect(c, pl);
    LayoutCarries(c, pl, pl');
  }

  /** The slot's open block keeps room, or the pool can replace it. */
  ghost predicate CanAllocate(c: Config, pl: Plane, slot: Slot) {
    && AllocReady(pl, slot)
    && (pl.pool != [] || pl.blocks[pl.open[slot]].written + 1 < c.pagesPerBlock)
  }

  /** What a successful allocation does to the plane, seen from outside. */
  ghost predicate AllocEffect(c: Config, pl: Plane, slot: Slot, pl': Plane, block: nat, page: nat)
    requires AllocReady(pl, slot)
  {
    var last := pl.blocks[pl.open[slot]].written + 1 == c.pagesPerBlock;
    && (last ==> pl.pool != [])
    && block == pl.open[slot]
    && page == pl.blocks[block].written
    && |pl'.blocks| == |pl.blocks|
    && pl'.free == pl.free - 1 && pl'.valid == pl.valid + 1 && pl'.invalid == pl.invalid
    && pl'.pool == (if last then pl.pool[1..] else pl.pool)
    && pl'.open == (if last then pl.open[slot := pl.pool[0].block] else pl.open)
    && forall b: nat :: b < |pl.blocks| ==>
         && pl'.blocks[b].written == (if b == block then page + 1 else pl.blocks[b].written)
         && pl'.blocks[b].invalid == pl.blocks[b].invalid
         && pl'.blocks[b].invalidCount == pl.blocks[b].invalidCount
         && pl'.blocks[b].eraseCount == pl.blocks[b].eraseCount
         && pl'.blocks[b].stream == (if last && b == pl.pool[0].block then slot.stream else pl.blocks[b].stream)
  }

  lemma PlaneIsReady(c: Config, pl: Plane, slots: set<Slot>, slot: Slot)
    requires PlaneOk(c, pl, slots) && slot in slots
    ensures AllocReady(pl, slot) && pl.blocks[pl.open[slot]].written < c.pagesPerBlock
    ensures var b := pl.open[slot];
            && pl.blocks[b].written !in pl.blocks[b].invalid && pl.blocks[b].stream == slot.stream
            && (pl.pool != [] ==> pl.pool[0].block != b && pl.blocks[pl.pool[0].block].written == 0)
  {
    assert BlockOk(c.pagesPerBlock, pl.blocks[pl.open[slot]]);
    if pl.pool != [] { assert InPool(pl.pool, pl.pool[0].block); }
  }

  lemma SlotIsReady(c: Config, pl: Plane, slot: Slot)
    requires PlaneInv(c, pl) && slot.stream < c.streams
    ensures AllocReady(pl, slot) && pl.blocks[pl.open[slot]].written < c.pagesPerBlock
    ensures var b := pl.open[slot];
            && pl.blocks[b].written !in pl.blocks[b].invalid && pl.blocks[b].stream == slot.stream
            && (pl.pool != [] ==> pl.pool[0].block != b && pl.blocks[pl.pool[0].block].written == 0)
  {
    hide PlaneOk;
    PlaneIsReady(c, pl, SlotsBelow(c.streams), slot);
  }

  /** An allocator fails exactly when it fills its open block while the pool is empty; its
      consistency checks never fire; otherwise it keeps the invariant. */
  lemma AllocateKeeps(c: Config, pl: Plane, slot: Slot)
    requires PlaneInv(c, pl) && slot.stream < c.streams
    ensures AllocReady(pl, slot)
    ensures CanAllocate(c, pl, slot) ==>
              Allocate(c, pl, slot).Allocated? && PlaneInv(c, Allocate(c, pl, slot).plane)
    ensures !CanAllocate(c, pl, slot) ==> Allocate(c, pl, slot) == AllocFailed(EmptyPool)
  {
    var slots := SlotsBelow(c.streams);
    PlaneIsReady(c, pl, slots, slot);
    var pl1 := WriteOpen(pl, slot);
    if pl.blocks[pl.open[slot]].written + 1 < c.pagesPerBlock {
      WriteOpenKeeps(c, pl, slots, slot);
      FreePagesRemain(c, pl1);
      hide PlaneOk;
    } else if pl.pool != [] {
      RefillKeeps(c, pl, slots, slot);
      var pl2 := TakeFree(pl1, slot);
      GcCheckEffectKeeps(c, pl2, slots);
      FreePagesRemain(c, GcCheckEffect(c, pl2));
      hide PlaneOk;
    }
  }

  /** A successful allocation hands out the next page of the slot's block, and changes no more
      than that block and, when the block is full, the slot and the front of the pool. */
  lemma AllocateChanges(c: Config, pl: Plane, slot: Slot)
    requires AllocReady(pl, slot) && Allocate(c, pl, slot).Allocated?
    ensures var r := Allocate(c, pl, slot); AllocEffect(c, pl, slot, r.plane, r.block, r.page)
  {
  }

  // ----- invalidation -----

  /** Invalidating a live page of the right stream passes the check and keeps the invariant;
      with the wrong stream it fails. */
  lemma InvalidateKeeps(c: Config, pl: Plane, slots: set<Slot>, stream: nat, b: nat, page: nat)
    requires PlaneOk(c, pl, slots) && LiveIn(pl, b, page)
    ensures Invalidate(pl, stream, b, page).PlaneOkay? <==> pl.blocks[b].stream == stream
    ensures pl.blocks[b].stream == stream ==>
              var pl' := Invalidate(pl, stream, b, page).plane;
              && PlaneOk(c, pl', slots)
              && pl'.valid == pl.valid - 1 && pl'.invalid == pl.invalid + 1 && pl'.free == pl.free
              && pl'.pool == pl.pool && pl'.open == pl.open
  {
    if pl.blocks[b].stream == stream {
      var pl' := Invalidate(pl, stream, b, page).plane;
      TallyUpdate(c.pagesPerBlock, pl.blocks, b, pl'.blocks[b]);
      LayoutCarries(c, pl, pl');
    }
  }

  /** The code does not check that the page is live. It keeps the invariant exactly if it is. */
  lemma InvalidateKeepsExactly(c: Config, pl: Plane, b: nat, page: nat)
    requires PlaneInv(c, pl) && b < |pl.blocks|
    ensures var r := Invalidate(pl, pl.blocks[b].stream, b, page);
            r.PlaneOkay? && (PlaneInv(c, r.plane) <==> LiveIn(pl, b, page))
  {
    if LiveIn(pl, b, page) {
      InvalidateKeeps(c, pl, SlotsBelow(c.streams), pl.blocks[b].stream, b, page);
    } else {
      var blk := pl.blocks[b];
      assert BlockOk(c.pagesPerBlock, blk);
      NotLiveNotOk(c.pagesPerBlock, blk, page);
      var pl' := Invalidate(pl, blk.stream, b, page).plane;
      assert !BlockOk(c.pagesPerBlock, pl'.blocks[b]);
    }
  }

  lemma NotLiveNotOk(pages: nat, b: Block, page: nat)
    requires BlockOk(pages, b) && !(page < b.written && page !in b.invalid)
    ensures !BlockOk(pages, b.(invalid := b.invalid + {page}, invalidCount := b.invalidCount + 1))
  {
    if page in b.invalid {
      assert b.invalid + {page} == b.invalid;
    } else {
      assert page in b.invalid + {page};
    }
  }

  // ----- ongoing-transaction marks -----

  /** Block `b'` differs from `b` in nothing but the ongoing transactions. */
  predicate SameData(b: Block, b': Block) {
    b' == b.(ongoingReads := b'.ongoingReads, ongoingPrograms := b'.ongoingPrograms, gc := b'.gc)
  }

  lemma MarkKeeps(c: Config, pl: Plane, slots: set<Slot>, b: nat, blk: Block)
    requires PlaneOk(c, pl, slots) && b < |pl.blocks| && SameData(pl.blocks[b], blk)
    ensures PlaneOk(c, pl.(blocks := pl.blocks[b := blk]), slots)
  {
    var pl' := pl.(blocks := pl.blocks[b := blk]);
    TallyUpdate(c.pagesPerBlock, pl.blocks, b, blk);
    LayoutCarries(c, pl, pl');
  }

  // ----- erase -----

  /** Ready for erase: full, and every page invalidated. */
  predicate FullyInvalid(c: Config, pl: Plane, b: nat) {
    b < |pl.blocks| && pl.blocks[b].written == c.pagesPerBlock && pl.blocks[b].invalidCount == c.pagesPerBlock
  }

  lemma FullyInvalidHasNoLivePage(c: Config, pl: Plane, slots: set<Slot>, b: nat, p: nat)
    requires PlaneOk(c, pl, slots) && FullyInvalid(c, pl, b)
    ensures !LiveIn(pl, b, p)
  {
    BlockBounds(c.pagesPerBlock, pl.blocks[b]);
  }

  lemma ReturnBlockPool(c: Config, pl: Plane, slots: set<Slot>, b: nat)
    requires PlaneOk(c, pl, slots) && FullyInvalid(c, pl, b)
    ensures var pl' := ReturnBlock(c, pl, b, c.pagesPerBlock);
            && PoolOk(c, pl')
            && |pl'.pool| == |pl.pool| + 1
            && forall x: nat :: InPool(pl'.pool, x) <==> x == b || InPool(pl.pool, x)
  {
    hide Tally, Insert, InPool, Sorted, OpenOk, Partitioned;
    var e := PoolEntry(if c.dynamicWl then pl.blocks[b].eraseCount + 1 else 0, b);
    NotPooled(c, pl, b);
    InsertKeepsOrder(pl.pool, e);
    forall x: nat ensures InPool(Insert(pl.pool, e), x) <==> x == b || InPool(pl.pool, x) {
      InsertMembers(pl.pool, e, x);
    }
    FiledRight(c, pl.pool, pl.blocks, b, Erased(pl.blocks[b]), e);
  }

  /** A written block is not in the pool. */
  lemma NotPooled(c: Config, pl: Plane, b: nat)
    requires PoolOk(c, pl) && b < |pl.blocks| && pl.blocks[b].written > 0
    ensures !InPool(pl.pool, b)
  {
  }

  /** Filing an erased block keeps every pool entry unwritten and under its wear. */
  lemma FiledRight(c: Config, pool: seq<PoolEntry>, blocks: seq<Block>, b: nat, blk: Block, e: PoolEntry)
    requires b < |blocks| && !InPool(pool, b) && blk.written == 0
    requires e == PoolEntry(if c.dynamicWl then blk.eraseCount else 0, b)
    requires forall i :: 0 <= i < |pool| ==>
               && pool[i].block < |blocks| && blocks[pool[i].block].written == 0
               && pool[i].key == if c.dynamicWl then blocks[pool[i].block].eraseCount else 0
    ensures var pool', blocks' := Insert(pool, e), blocks[b := blk];
            forall i :: 0 <= i < |pool'| ==>
               && pool'[i].block < |blocks'| && blocks'[pool'[i].block].written == 0
               && pool'[i].key == if c.dynamicWl then blocks'[pool'[i].block].eraseCount else 0
  {
    hide UpperBound;
    var k := UpperBound(pool, e.key);
    var pool' := Insert(pool, e);
    forall i | 0 <= i < |pool'| ensures pool'[i] == e || (pool'[i] in pool && pool'[i].block != b) {
      if i != k { assert pool'[i] == pool[if i < k then i else i - 1]; }
    }
    hide Insert;
  }

  lemma ReturnBlockKeeps(c: Config, pl: Plane, slots: set<Slot>, b: nat)
    requires PlaneOk(c, pl, slots) && FullyInvalid(c, pl, b)
    ensures PlaneOk(c, ReturnBlock(c, pl, b, c.pagesPerBlock), slots)
  {
    var pl' := ReturnBlock(c, pl, b, c.pagesPerBlock);
    ReturnBlockPool(c, pl, slots, b);
    TallyUpdate(c.pagesPerBlock, pl.blocks, b, pl'.blocks[b]);
    assert pl'.open == pl.open;
    forall b': nat ensures Placed(c, pl', b') {
      assert Placed(c, pl, b');
      if IsOpen(pl, b') { assert IsOpen(pl', b'); }
    }
  }

  /** Erasing a fully invalidated block, with the intended credit: the checks pass, the
      invariant is kept, a block of pages becomes free, the pool grows by that block. */
  lemma EraseKeeps(c: Config, pl: Plane, b: nat)
    requires PlaneInv(c, pl) && FullyInvalid(c, pl, b)
    ensures var r := Erase(c, pl, b);
            && r.PlaneOkay? && PlaneInv(c, r.plane)
            && r.plane.free == pl.free + c.pagesPerBlock
            && |r.plane.pool| == |pl.pool| + 1
            && InPool(r.plane.pool, b)
            && r.plane.open == pl.open
  {
    ReturnBlockKeeps(c, pl, SlotsBelow(c.streams), b);
    ReturnBlockPool(c, pl, SlotsBelow(c.streams), b);
    FreePagesRemain(c, ReturnBlock(c, pl, b, c.pagesPerBlock));
  }

  /** What the erase leaves: a block with nothing written and nothing invalid, of no stream, worn once
      more, its marks as they were; its invalid pages are free pages again, and it is in the pool. */
  lemma EraseLeaves(c: Config, pl: Plane, b: nat)
    requires b < |pl.blocks| && Erase(c, pl, b).PlaneOkay?
    ensures var pl', was := Erase(c, pl, b).plane, pl.blocks[b];
            && pl'.blocks == pl.blocks[b := Block(0, {}, 0, was.eraseCount + 1, NO_STREAM, was.ongoingReads,
                                                  was.ongoingPrograms, was.gc)]
            && pl'.free == pl.free + was.invalidCount && pl'.invalid == pl.invalid - was.invalidCount
            && pl'.valid == pl.valid && pl'.total == pl.total
            && pl'.open == pl.open && pl'.history == pl.history && pl'.erasing == pl.erasing
            && |pl'.pool| == |pl.pool| + 1
            && (forall x: nat :: InPool(pl'.pool, x) <==> x == b || InPool(pl.pool, x))
  {
    var e := PoolEntry(if c.dynamicWl then pl.blocks[b].eraseCount + 1 else 0, b);
    forall x: nat { InsertMembers(pl.pool, e, x); }
    hide InPool, UpperBound;
  }

  /** The erase check does not protect valid data: with the intended credit it passes for every
      block of the plane, yet the invariant survives exactly for fully invalidated blocks. */
  lemma EraseKeepsExactly(c: Config, pl: Plane, b: nat)
    requires PlaneInv(c, pl) && b < |pl.blocks|
    ensures Erase(c, pl, b).PlaneOkay?
    ensures PlaneInv(c, Erase(c, pl, b).plane) <==> FullyInvalid(c, pl, b)
  {
    FreePagesRemain(c, pl);
    if FullyInvalid(c, pl, b) {
      EraseKeeps(c, pl, b);
    } else {
      BadErase(c, pl, b);
    }
    hide PlaneInv, ReturnBlock;
  }

  /** Erasing a free block files it twice, an open one leaves it open and free at once, and one
      with valid pages left counts too few free pages. */
  lemma BadErase(c: Config, pl: Plane, b: nat)
    requires PlaneInv(c, pl) && b < |pl.blocks| && !FullyInvalid(c, pl, b)
    ensures !PlaneInv(c, ReturnBlock(c, pl, b, pl.blocks[b].invalidCount))
  {
    hide Insert, Sorted, BlocksOk;
    var pl' := ReturnBlock(c, pl, b, pl.blocks[b].invalidCount);
    var e := PoolEntry(if c.dynamicWl then Erased(pl.blocks[b]).eraseCount else 0, b);
    assert Placed(c, pl, b);
    if InPool(pl.pool, b) {
      FiledTwice(pl.pool, e);
    } else if IsOpen(pl, b) {
      InsertMembers(pl.pool, e, b);
    } else {
      TallyUpdate(c.pagesPerBlock, pl.blocks, b, Erased(pl.blocks[b]));
      assert pl'.free != Tally(c.pagesPerBlock, pl'.blocks).free;
    }
  }

  lemma FiledTwice(pool: seq<PoolEntry>, e: PoolEntry)
    requires InPool(pool, e.block)
    ensures !DistinctBlocks(Insert(pool, e))
  {
    hide UpperBound;
    var k := UpperBound(pool, e.key);
    var i :| 0 <= i < |pool| && pool[i].block == e.block;
    assert Insert(pool, e)[k] == e && Insert(pool, e)[if i < k then i else i + 1] == pool[i];
  }

  // ----- the erase credit as the code has it -----

  /** The sum check of the code's erase passes exactly when half of the block's pages are
      invalid, whatever block of the plane is erased. */
  lemma EraseAsWrittenSumCheck(c: Config, pl: Plane, slots: set<Slot>, b: nat)
    requires PlaneOk(c, pl, slots) && b < |pl.blocks|
    ensures EraseAsWritten(c, pl, b) != PlaneFailed(InconsistentCounters)
            <==> 2 * pl.blocks[b].invalidCount == c.pagesPerBlock
  {
    CountersAreSafe(c, pl, slots);
  }

  /** So the code's erase of a fully invalidated block always stops the simulator. */
  lemma EraseAsWrittenFailsWhenNeeded(c: Config, pl: Plane, slots: set<Slot>, b: nat)
    requires PlaneOk(c, pl, slots) && FullyInvalid(c, pl, b)
    ensures EraseAsWritten(c, pl, b) == PlaneFailed(InconsistentCounters)
  {
    EraseAsWrittenSumCheck(c, pl, slots, b);
  }

  /** And where the sum check passes, the counters are still wrong unless exactly the first
      half of the block was written and all of it invalidated. */
  lemma EraseAsWrittenCountersExact(c: Config, pl: Plane, slots: set<Slot>, b: nat)
    requires PlaneOk(c, pl, slots) && b < |pl.blocks|
    ensures CountersOk(c, ReturnBlock(c, pl, b, c.pagesPerBlock - pl.blocks[b].invalidCount))
            <==> pl.blocks[b].written == pl.blocks[b].invalidCount
                 && 2 * pl.blocks[b].invalidCount == c.pagesPerBlock
  {
    TallyUpdate(c.pagesPerBlock, pl.blocks, b, Erased(pl.blocks[b]));
  }

  /** No block at all can be erased by the code with the plane invariant kept: the one case
      with exact counters is an open block, which would be free and open at once. */
  lemma EraseAsWrittenNeverKeeps(c: Config, pl: Plane, slots: set<Slot>, b: nat)
    requires PlaneOk(c, pl, slots) && b < |pl.blocks|
    ensures !PlaneOk(c, ReturnBlock(c, pl, b, c.pagesPerBlock - pl.blocks[b].invalidCount), slots)
  {
    var pl' := ReturnBlock(c, pl, b, c.pagesPerBlock - pl.blocks[b].invalidCount);
    EraseAsWrittenCountersExact(c, pl, slots, b);
    var key := if c.dynamicWl then Erased(pl.blocks[b]).eraseCount else 0;
    InsertMembers(pl.pool, PoolEntry(key, b), b);
    assert Placed(c, pl, b);
  }
}
