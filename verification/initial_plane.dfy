/** The plane the constructor builds: every block in the pool, then three opened per stream. */
module InitialPlanes {
  import opened FlashTypes
  import opened FreePool
  import opened PlaneModel
  import opened PlaneProofs

  const FRESH_BLOCK: Block := Block(0, {}, 0, 0, NO_STREAM, 0, 0, false)

  function FreshBlocks(n: nat): (r: seq<Block>)
    ensures |r| == n && forall i :: 0 <= i < n ==> r[i] == FRESH_BLOCK
  {
    seq(n, i => FRESH_BLOCK)
  }

  function FreshPool(n: nat): (r: seq<PoolEntry>)
    ensures |r| == n && forall i :: 0 <= i < n ==> r[i] == PoolEntry(0, i)
  {
    seq(n, i requires 0 <= i => PoolEntry(0, i))
  }

  /** A plane whose blocks are all in the pool. */
  function FreshPlane(c: Config): Plane {
    var n := c.blocksPerPlane * c.pagesPerBlock;
    Plane(n, n, 0, 0, map[], FreshPool(c.blocksPerPlane), [], {}, FreshBlocks(c.blocksPerPlane))
  }

  lemma {:induction false} FreshTally(pages: nat, n: nat)
    ensures Tally(pages, FreshBlocks(n)) == Counts(n * pages, 0, 0, 0)
  {
    if n > 0 {
      FreshTally(pages, n - 1);
      assert FreshBlocks(n)[1..] == FreshBlocks(n - 1);
    }
  }

  lemma FreshPlaneOk(c: Config)
    requires GoodConfig(c)
    ensures PlaneOk(c, FreshPlane(c), {})
  {
    var pl := FreshPlane(c);
    FreshTally(c.pagesPerBlock, c.blocksPerPlane);
    forall b: nat ensures Placed(c, pl, b) {
      if b < |pl.blocks| { assert pl.pool[b].block == b; }
    }
  }

  predicate PoolInRange(pl: Plane) {
    forall i :: 0 <= i < |pl.pool| ==> pl.pool[i].block < |pl.blocks|
  }

  /** Opening the three blocks of stream `s`. */
  function OpenStream(pl: Plane, s: nat): (r: Plane)
    requires |pl.pool| >= 3 && PoolInRange(pl)
    ensures |r.pool| == |pl.pool| - 3 && PoolInRange(r)
  {
    TakeFree(TakeFree(TakeFree(pl, Slot(Data, s)), Slot(Gc, s)), Slot(Translation, s))
  }

  /** The constructor opens three blocks for each stream in turn. */
  function OpenStreams(pl: Plane, n: nat): (r: Plane)
    requires 3 * n <= |pl.pool| && PoolInRange(pl)
    ensures |r.pool| == |pl.pool| - 3 * n && PoolInRange(r)
  {
    if n == 0 then pl else OpenStream(OpenStreams(pl, n - 1), n - 1)
  }

  lemma NoStreamsOpened(pl: Plane)
    requires PoolInRange(pl)
    ensures OpenStreams(pl, 0) == pl
  {
  }

  lemma NextStreamOpened(pl: Plane, s: nat)
    requires 3 * (s + 1) <= |pl.pool| && PoolInRange(pl)
    ensures |OpenStreams(pl, s).pool| >= 3 && PoolInRange(OpenStreams(pl, s))
    ensures OpenStreams(pl, s + 1) == OpenStream(OpenStreams(pl, s), s)
  {
    hide OpenStream;
  }

  lemma NextSlots(s: nat)
    ensures SlotsBelow(s + 1) == SlotsBelow(s) + {Slot(Data, s)} + {Slot(Gc, s)} + {Slot(Translation, s)}
    ensures forall k: Kind :: Slot(k, s) !in SlotsBelow(s)
  {
  }

  lemma OpenStreamKeeps(c: Config, pl: Plane, slots: set<Slot>, s: nat)
    requires PlaneOk(c, pl, slots) && |pl.pool| >= 3 && PoolInRange(pl)
    requires Slot(Data, s) !in slots && Slot(Gc, s) !in slots && Slot(Translation, s) !in slots
    ensures PlaneOk(c, OpenStream(pl, s), slots + {Slot(Data, s)} + {Slot(Gc, s)} + {Slot(Translation, s)})
  {
    hide PlaneOk;
    var pl1 := TakeFree(pl, Slot(Data, s));
    var pl2 := TakeFree(pl1, Slot(Gc, s));
    TakeFreeKeeps(c, pl, slots, Slot(Data, s));
    TakeFreeKeeps(c, pl1, slots + {Slot(Data, s)}, Slot(Gc, s));
    TakeFreeKeeps(c, pl2, slots + {Slot(Data, s)} + {Slot(Gc, s)}, Slot(Translation, s));
  }

  /** Opening blocks keeps the plane invariant, stream by stream. */
  lemma {:induction false} OpenStreamsKeeps(c: Config, pl: Plane, n: nat)
    requires PlaneOk(c, pl, {}) && 3 * n <= |pl.pool| && PoolInRange(pl)
    ensures PlaneOk(c, OpenStreams(pl, n), SlotsBelow(n))
  {
    hide PlaneOk, OpenStream, PoolInRange;
    if n == 0 {
      assert SlotsBelow(0) == {};
    } else {
      NextSlots(n - 1);
      hide SlotsBelow;
      OpenStreamsKeeps(c, pl, n - 1);
      OpenStreamKeeps(c, OpenStreams(pl, n - 1), SlotsBelow(n - 1), n - 1);
    }
  }

  lemma {:induction false} OpenStreamsWritesNothing(pl: Plane, n: nat, i: nat)
    requires 3 * n <= |pl.pool| && PoolInRange(pl) && i < |pl.blocks|
    ensures |OpenStreams(pl, n).blocks| == |pl.blocks|
    ensures OpenStreams(pl, n).blocks[i].written == pl.blocks[i].written
  {
    if n > 0 {
      OpenStreamsWritesNothing(pl, n - 1, i);
    }
  }

  /** The plane the constructor builds. */
  function InitialPlane(c: Config): Plane
    requires GoodConfig(c) && 3 * c.streams <= c.blocksPerPlane
  {
    OpenStreams(FreshPlane(c), c.streams)
  }

  lemma InitialPlaneInv(c: Config)
    requires GoodConfig(c) && 3 * c.streams <= c.blocksPerPlane
    ensures PlaneInv(c, InitialPlane(c)) && InitialPlane(c).valid == 0
    ensures forall i :: 0 <= i < |InitialPlane(c).blocks| ==> InitialPlane(c).blocks[i].written == 0
  {
    FreshPlaneOk(c);
    OpenStreamsKeeps(c, FreshPlane(c), c.streams);
    var pl := InitialPlane(c);
    forall i: nat | i < |FreshPlane(c).blocks|
      ensures |pl.blocks| == |FreshPlane(c).blocks| && pl.blocks[i].written == 0
    {
      OpenStreamsWritesNothing(FreshPlane(c), c.streams, i);
    }
    UnwrittenPlane(c, pl);
  }

  lemma UnwrittenPlane(c: Config, pl: Plane)
    requires PlaneInv(c, pl) && forall i :: 0 <= i < |pl.blocks| ==> pl.blocks[i].written == 0
    ensures pl.valid == 0
  {
    assert forall i :: 0 <= i < |pl.blocks| ==> BlockOk(c.pagesPerBlock, pl.blocks[i]);
    AllFreshTally(c.pagesPerBlock, pl.blocks);
  }

  lemma {:induction false} AllFreshTally(pages: nat, blocks: seq<Block>)
    requires forall i :: 0 <= i < |blocks| ==> BlockOk(pages, blocks[i]) && blocks[i].written == 0
    ensures Tally(pages, blocks).valid == 0
  {
    if blocks != [] {
      BlockBounds(pages, blocks[0]);
      AllFreshTally(pages, blocks[1..]);
    }
  }

  /** GetOneFreeBlock alone: the front of the pool now belongs to the stream. */
  function Drawn(pl: Plane, stream: nat): Plane
    requires pl.pool != [] && pl.pool[0].block < |pl.blocks|
  {
    var id := pl.pool[0].block;
    pl.(pool := pl.pool[1..], history := pl.history + [id],
        blocks := pl.blocks[id := pl.blocks[id].(stream := stream)])
  }

  /** Drawing three blocks and then filling the three slots opens the stream. */
  lemma ThreeDraws(pl: Plane, s: nat)
    requires |pl.pool| >= 3 && PoolInRange(pl)
    ensures var p1 := Drawn(pl, s);
            && p1.pool != [] && p1.pool[0].block < |p1.blocks|
            && var p2 := Drawn(p1, s);
            && p2.pool != [] && p2.pool[0].block < |p2.blocks|
            && OpenStream(pl, s)
               == Drawn(p2, s).(open := pl.open[Slot(Data, s) := pl.pool[0].block][Slot(Gc, s) := p1.pool[0].block]
                                              [Slot(Translation, s) := p2.pool[0].block])
  {
  }

  /** The first `3 * n` blocks are open, block number by block number in the order of the slots;
      the rest wait in the pool in order. */
  ghost predicate OpenedInOrder(c: Config, pl: Plane, n: nat) {
    && |pl.blocks| == c.blocksPerPlane && |pl.pool| == c.blocksPerPlane - 3 * n
    && (forall i :: 0 <= i < |pl.pool| ==> pl.pool[i] == PoolEntry(0, 3 * n + i))
    && (forall b :: 0 <= b < |pl.blocks| ==>
          pl.blocks[b] == Block(0, {}, 0, 0, if b < 3 * n then b / 3 else NO_STREAM, 0, 0, false))
    && |pl.history| == 3 * n && (forall i :: 0 <= i < 3 * n ==> pl.history[i] == i)
    && (forall x: Slot :: x in pl.open <==> x.stream < n)
    && (forall x :: x in pl.open ==> pl.open[x] == SlotNumber(x))
    && pl.erasing == {}
  }

  lemma OpenStreamInOrder(c: Config, pl: Plane, n: nat)
    requires OpenedInOrder(c, pl, n) && |pl.pool| >= 3 && PoolInRange(pl)
    ensures OpenedInOrder(c, OpenStream(pl, n), n + 1)
  {
    var r := OpenStream(pl, n);
    assert r.pool == pl.pool[3..] && r.history == pl.history + [3 * n, 3 * n + 1, 3 * n + 2];
    assert r.open == pl.open[Slot(Data, n) := 3 * n][Slot(Gc, n) := 3 * n + 1][Slot(Translation, n) := 3 * n + 2];
    forall x: Slot ensures x in r.open <==> x.stream < n + 1 {
      assert x.kind.Data? || x.kind.Gc? || x.kind.Translation?;
    }
  }

  lemma {:induction false} OpenStreamsInOrder(c: Config, n: nat)
    requires 3 * n <= c.blocksPerPlane
    ensures OpenedInOrder(c, OpenStreams(FreshPlane(c), n), n)
  {
    hide OpenStream;
    if n > 0 {
      hide OpenedInOrder;
      OpenStreamsInOrder(c, n - 1);
      OpenStreamInOrder(c, OpenStreams(FreshPlane(c), n - 1), n - 1);
    }
  }
}
