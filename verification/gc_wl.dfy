/** Victim selection. Random draws come from a finite stream of block ids; a selection that would
    need more draws than the stream holds yields nothing. */
module GcWl {
  import opened FlashTypes
  import opened FreePool
  import opened PlaneModel
  import opened PlaneBookkeeping

  /** Not an open block, nothing being programmed in it, not being collected. */
  ghost predicate SafeCandidate(pl: Plane, id: nat)
    requires id < |pl.blocks|
  {
    && !IsOpen(pl, id)
    && pl.blocks[id].ongoingPrograms <= 0
    && !pl.blocks[id].gc
  }

  /** A full block: its last page has been handed out. */
  predicate Full(pl: Plane, id: nat, pages: nat)
    requires id < |pl.blocks|
  {
    pl.blocks[id].written == pages
  }

  /** The plane invariant makes a random sample's best block collectable: a safe block with an
      invalid page is full. */
  lemma SafeInvalidBlockIsFull(c: Config, pl: Plane, id: nat)
    requires PlaneInv(c, pl) && id < |pl.blocks| && SafeCandidate(pl, id) && pl.blocks[id].invalidCount > 0
    ensures Full(pl, id, c.pagesPerBlock)
  {
    assert Placed(c, pl, id);
    assert BlockOk(c.pagesPerBlock, pl.blocks[id]);
    BlockBounds(c.pagesPerBlock, pl.blocks[id]);
  }

  /** And a full block is never an open or a free one. */
  lemma FullBlockIsClosed(c: Config, pl: Plane, id: nat)
    requires PlaneInv(c, pl) && id < |pl.blocks| && Full(pl, id, c.pagesPerBlock)
    ensures !IsOpen(pl, id) && !InPool(pl.pool, id)
  {
  }

  // ----- selections, as functions of the draws -----

  /** What a random policy asks of a block: nothing, or to be full and have that many invalid
      pages. */
  ghost predicate Acceptable(pl: Plane, pages: nat, demand: Option<nat>, id: nat)
    requires id < |pl.blocks|
  {
    demand == None || (pl.blocks[id].written >= pages && pl.blocks[id].invalidCount >= demand.value)
  }

  ghost predicate InPlane(pl: Plane, drawn: seq<nat>) {
    forall i :: 0 <= i < |drawn| ==> drawn[i] < |pl.blocks|
  }

  /** How many of the draws were acceptable but unsafe. */
  ghost function UnsafeDraws(pl: Plane, pages: nat, demand: Option<nat>, drawn: seq<nat>): nat
    requires InPlane(pl, drawn)
  {
    if drawn == [] then 0
    else
      var last := drawn[|drawn| - 1];
      UnsafeDraws(pl, pages, demand, drawn[..|drawn| - 1])
      + if Acceptable(pl, pages, demand, last) && !SafeCandidate(pl, last) then 1 else 0
  }

  /** Draw `i` ends the selection: it is acceptable, and safe or preceded by as many unsafe ones
      as the plane has blocks. */
  ghost predicate Settles(pl: Plane, pages: nat, demand: Option<nat>, drawn: seq<nat>, i: nat)
    requires InPlane(pl, drawn) && i < |drawn|
  {
    && Acceptable(pl, pages, demand, drawn[i])
    && (SafeCandidate(pl, drawn[i]) || UnsafeDraws(pl, pages, demand, drawn[..i]) >= |pl.blocks|)
  }

  ghost predicate Unsettled(pl: Plane, pages: nat, demand: Option<nat>, drawn: seq<nat>, n: nat)
    requires InPlane(pl, drawn) && n <= |drawn|
  {
    forall i :: 0 <= i < n ==> !Settles(pl, pages, demand, drawn, i)
  }

  /** From the draws `drawn` a random policy selects the first that settles, leaving `left`; it
      selects nothing exactly when none does, and then has used them all. */
  ghost predicate Selected(pl: Plane, pages: nat, demand: Option<nat>, drawn: seq<nat>, r: Option<nat>,
                           left: seq<nat>) {
    && InPlane(pl, drawn) && |left| <= |drawn|
    && var n := |drawn| - |left|;
       && left == drawn[n..]
       && match r
          case None => left == [] && Unsettled(pl, pages, demand, drawn, n)
          case Some(id) =>
            && n > 0 && id == drawn[n - 1] && Settles(pl, pages, demand, drawn, n - 1)
            && Unsettled(pl, pages, demand, drawn, n - 1)
  }

  /** A selected block is one of the plane, of the demanded kind, and safe unless the unsafe
      redraws ran out. */
  lemma {:induction false} SelectedBlock(pl: Plane, pages: nat, demand: Option<nat>, drawn: seq<nat>, id: nat,
                                         left: seq<nat>)
    requires Selected(pl, pages, demand, drawn, Some(id), left)
    ensures id < |pl.blocks| && Acceptable(pl, pages, demand, id)
    ensures SafeCandidate(pl, id) || UnsafeDraws(pl, pages, demand, drawn) > |pl.blocks|
  {
    var n := |drawn| - |left|;
    if !SafeCandidate(pl, id) {
      assert drawn[..n][..n - 1] == drawn[..n - 1];
      assert UnsafeDraws(pl, pages, demand, drawn[..n]) > |pl.blocks|;
      UnsafeGrows(pl, pages, demand, drawn, n);
    }
    hide SafeCandidate;
  }

  lemma {:induction false} UnsafeGrows(pl: Plane, pages: nat, demand: Option<nat>, drawn: seq<nat>, n: nat)
    requires InPlane(pl, drawn) && n <= |drawn|
    ensures UnsafeDraws(pl, pages, demand, drawn[..n]) <= UnsafeDraws(pl, pages, demand, drawn)
  {
    hide SafeCandidate, Acceptable;
    if n == |drawn| {
      assert drawn[..n] == drawn;
    } else {
      UnsafeGrows(pl, pages, demand, drawn[..|drawn| - 1], n);
      assert drawn[..|drawn| - 1][..n] == drawn[..n];
    }
  }

  /** The distinct draws that may enter a random sample: safe and not being erased. */
  ghost function Eligible(pl: Plane, drawn: seq<nat>): set<nat> {
    set b | b in drawn && b < |pl.blocks| && b !in pl.erasing && SafeCandidate(pl, b)
  }

  /** Full, and safe to collect. */
  ghost predicate Collectable(pl: Plane, pages: nat, id: nat)
    requires id < |pl.blocks|
  {
    Full(pl, id, pages) && SafeCandidate(pl, id)
  }

  /** After the scan has examined blocks 1 .. n-1 its candidate is the block it started from,
      unless one of them is collectable and more invalid; then it is the first of the most invalid
      ones. */
  ghost predicate Leads(pl: Plane, pages: nat, start: nat, n: nat, id: nat) {
    && start < |pl.blocks| && id < |pl.blocks| && n <= |pl.blocks|
    && pl.blocks[start].invalidCount <= pl.blocks[id].invalidCount
    && (id != start ==>
          && 1 <= id < n && Collectable(pl, pages, id)
          && pl.blocks[id].invalidCount > pl.blocks[start].invalidCount
          && forall b: nat :: 1 <= b < id && Collectable(pl, pages, b) ==>
               pl.blocks[b].invalidCount < pl.blocks[id].invalidCount)
    && forall b: nat :: 1 <= b < n && Collectable(pl, pages, b) ==>
         pl.blocks[b].invalidCount <= pl.blocks[id].invalidCount
  }

  lemma LeadsAtFirst(pl: Plane, pages: nat, start: nat)
    requires start < |pl.blocks|
    ensures Leads(pl, pages, start, 1, start)
  {
    hide Collectable;
  }

  lemma LeadsNext(pl: Plane, pages: nat, start: nat, n: nat, id: nat)
    requires Leads(pl, pages, start, n, id) && 1 <= n < |pl.blocks|
    ensures var better := pl.blocks[n].invalidCount > pl.blocks[id].invalidCount && Collectable(pl, pages, n);
            Leads(pl, pages, start, n + 1, if better then n else id)
  {
    hide Collectable;
  }

  /** What the greedy scan selects. It starts from block 0, or from block 1 while block 0 is being
      erased, and does not examine its first candidate. */
  ghost predicate Greediest(pl: Plane, pages: nat, id: nat) {
    var start := if 0 in pl.erasing then 1 else 0;
    if |pl.blocks| < 2 then id == start else Leads(pl, pages, start, |pl.blocks|, id)
  }

  /** The greedy choice is determined by the plane. It is collectable exactly when the block the
      scan starts from is, or a later collectable one is more invalid than that block. */
  lemma GreedyChoice(pl: Plane, pages: nat, id: nat, id': nat)
    requires Greediest(pl, pages, id) && Greediest(pl, pages, id') && |pl.blocks| >= 2
    ensures id == id'
    ensures var start := if 0 in pl.erasing then 1 else 0;
            Collectable(pl, pages, id)
            <==> Collectable(pl, pages, start)
                 || exists b: nat :: 1 <= b < |pl.blocks| && Collectable(pl, pages, b)
                                     && pl.blocks[b].invalidCount > pl.blocks[start].invalidCount
  {
  }

  ghost predicate IsLeast(sample: set<nat>, id: nat) {
    id in sample && forall b :: b in sample ==> id <= b
  }

  /** `id` is at least as invalid as every full block of the sample: its first element, or the
      first of the most invalid full ones if they are more invalid than that element. */
  ghost predicate BestOf(pl: Plane, pages: nat, sample: set<nat>, id: nat) {
    && id in sample
    && (forall b :: b in sample ==> b < |pl.blocks| && b !in pl.erasing && SafeCandidate(pl, b))
    && (forall b :: b in sample && Full(pl, b, pages) ==> pl.blocks[b].invalidCount <= pl.blocks[id].invalidCount)
    && (IsLeast(sample, id) || Full(pl, id, pages))
    && forall b :: b in sample && b < id && (Full(pl, b, pages) || IsLeast(sample, b)) ==>
         pl.blocks[b].invalidCount < pl.blocks[id].invalidCount
  }

  /** Random greedy selection with a sample of `size`: the sample is what the draws used up hold
      of eligible blocks; nothing is selected exactly when no block is asked for or all draws
      together hold too few. */
  ghost predicate Sampled(pl: Plane, pages: nat, size: nat, drawn: seq<nat>, r: Option<nat>, sample: set<nat>,
                          left: seq<nat>) {
    && |left| <= |drawn|
    && var n := |drawn| - |left|;
       && left == drawn[n..]
       && (r == None <==> size == 0 || |Eligible(pl, drawn)| < size)
       && (r.Some? ==> sample == Eligible(pl, drawn[..n]) && |sample| == size && BestOf(pl, pages, sample, r.value))
  }

  /** A collection is due: the pool is short and not too many erases are under way. */
  predicate Due(c: Config, pl: Plane) { |pl.pool| < c.gcThreshold && |pl.erasing| < c.maxGc }

  /** What CheckGcRequired selects in plane `pl`, under every policy. As written the greedy policy
      falls through into the random greedy one. */
  ghost predicate Chosen(c: Config, pl: Plane, size: nat, least: nat, drawn: seq<nat>, r: Option<nat>,
                         sample: set<nat>, left: seq<nat>)
    requires pl.history != []
  {
    if !Due(c, pl) then r == None && left == drawn
    else
      match c.policy
      case Greedy => Sampled(pl, c.pagesPerBlock, size, drawn, r, sample, left)
      case Rga => Sampled(pl, c.pagesPerBlock, size, drawn, r, sample, left)
      case Random => Selected(pl, c.pagesPerBlock, None, drawn, r, left)
      case RandomP => Selected(pl, c.pagesPerBlock, Some(0), drawn, r, left)
      case RandomPP => Selected(pl, c.pagesPerBlock, Some(least), drawn, r, left)
      case Fifo => r == Some(pl.history[0]) && left == drawn
  }

  lemma EligibleNext(pl: Plane, drawn: seq<nat>, n: nat)
    requires n < |drawn| && drawn[n] < |pl.blocks|
    ensures Eligible(pl, drawn[..n + 1])
            == Eligible(pl, drawn[..n])
               + if drawn[n] !in pl.erasing && SafeCandidate(pl, drawn[n]) then {drawn[n]} else {}
  {
    hide SafeCandidate;
    assert drawn[..n + 1] == drawn[..n] + [drawn[n]];
  }

  lemma NothingEligible(pl: Plane, drawn: seq<nat>)
    ensures Eligible(pl, drawn[..0]) == {}
  {
  }

  lemma EligibleGrows(pl: Plane, drawn: seq<nat>, n: nat)
    requires n <= |drawn|
    ensures |Eligible(pl, drawn[..n])| <= |Eligible(pl, drawn)|
  {
    hide SafeCandidate;
    assert forall b :: b in drawn[..n] ==> b in drawn;
    SubsetSize(Eligible(pl, drawn[..n]), Eligible(pl, drawn));
  }

  lemma {:induction false} NoUnsafeDraws(pl: Plane, pages: nat, demand: Option<nat>, drawn: seq<nat>)
    requires InPlane(pl, drawn)
    ensures UnsafeDraws(pl, pages, demand, drawn[..0]) == 0
  {
  }

  lemma {:induction false} NextDraw(pl: Plane, pages: nat, demand: Option<nat>, drawn: seq<nat>, n: nat)
    requires InPlane(pl, drawn) && n < |drawn|
    ensures UnsafeDraws(pl, pages, demand, drawn[..n + 1])
            == UnsafeDraws(pl, pages, demand, drawn[..n])
               + if Acceptable(pl, pages, demand, drawn[n]) && !SafeCandidate(pl, drawn[n]) then 1 else 0
    ensures demand == None ==> Acceptable(pl, pages, demand, drawn[n])
  {
    hide SafeCandidate;
    assert drawn[..n + 1][..n] == drawn[..n];
  }

  class GcWlUnit {
    const c: Config
    const rgaSetSize: nat
    const randomPpThreshold: nat
    var draws: seq<nat>

    constructor (c: Config, rgaSetSize: nat, randomPpThreshold: nat, draws: seq<nat>)
      ensures this.c == c && this.rgaSetSize == rgaSetSize && this.randomPpThreshold == randomPpThreshold
              && this.draws == draws
    {
      this.c, this.rgaSetSize, this.randomPpThreshold, this.draws := c, rgaSetSize, randomPpThreshold, draws;
    }

    /** The plane has the dimensions the unit was built for. */
    ghost predicate Matches(plane: PlaneBookKeeping)
      reads plane, plane.blocks
    {
      && plane.Shaped() && plane.streams == c.streams && plane.pagesPerBlock == c.pagesPerBlock
      && |plane.dataOpenBlocks| == c.streams && |plane.blocks| == c.blocksPerPlane
    }

    /** The plane fits the unit, and every draw is one of its blocks. */
    ghost predicate Fits(plane: PlaneBookKeeping)
      reads this, plane, plane.blocks
    {
      Matches(plane) && DrawsInRange()
    }

    ghost predicate DrawsInRange()
      reads this
    {
      forall i :: 0 <= i < |draws| ==> draws[i] < c.blocksPerPlane
    }

    method GetRandomBlockId() returns (r: Option<nat>)
      modifies this`draws
      ensures old(draws) == [] ==> r == None && draws == []
      ensures old(draws) != [] ==> r == Some(old(draws)[0]) && draws == old(draws)[1..]
    {
      if draws == [] {
        return None;
      }
      r := Some(draws[0]);
      draws := draws[1..];
    }

    /** Compare the id with the three open blocks of every stream, then look at its marks. */
    method IsSafeGcCandidate(plane: PlaneBookKeeping, id: nat) returns (safe: bool)
      requires Matches(plane) && id < |plane.blocks|
      ensures safe <==> SafeCandidate(plane.Value(), id)
      ensures safe <==>
                && (forall x: Slot :: x.stream < plane.streams ==> plane.OpenBlock(x).blockId != id)
                && plane.blocks[id].ongoingUserProgramCnt <= 0 && !plane.blocks[id].hasOngoingGc
    {
      var s := 0;
      while s < plane.streams
        invariant 0 <= s <= plane.streams
        invariant forall x: Slot :: x.stream < s ==> plane.OpenBlock(x).blockId != id
      {
        if plane.dataOpenBlocks[s].blockId == id || plane.gcOpenBlocks[s].blockId == id
           || plane.translationOpenBlocks[s].blockId == id {
          ghost var x := Slot(if plane.dataOpenBlocks[s].blockId == id then Data
                              else if plane.gcOpenBlocks[s].blockId == id then Gc else Translation, s);
          assert x in plane.Value().open && plane.Value().open[x] == id;
          return false;
        }
        s := s + 1;
      }
      if plane.blocks[id].ongoingUserProgramCnt > 0 {
        return false;
      }
      if plane.blocks[id].hasOngoingGc {
        return false;
      }
      safe := true;
    }

    /** Greedy selection as intended: scan all blocks for the full safe one with the most
        invalid pages. */
    method SelectGreedy(plane: PlaneBookKeeping) returns (id: nat)
      requires Fits(plane)
      ensures Greediest(plane.Value(), c.pagesPerBlock, id)
    {
      hide PlaneBookKeeping.Value, PlaneBookKeeping.Shaped, SafeCandidate, Leads;
      id := 0;
      if 0 in plane.ongoingEraseBlocks {
        id := 1;
      }
      ghost var pl, start := plane.Value(), id;
      PlaneDimensions(plane);
      if 2 <= c.blocksPerPlane { LeadsAtFirst(pl, c.pagesPerBlock, start); }
      var b := 1;
      while b < c.blocksPerPlane
        invariant (b == 1 ==> id == start) && (c.blocksPerPlane < 2 ==> b == 1)
        invariant id < c.blocksPerPlane || c.blocksPerPlane < 2
        invariant 2 <= c.blocksPerPlane ==> 1 <= b <= c.blocksPerPlane && Leads(pl, c.pagesPerBlock, start, b, id)
      {
        var safe := IsSafeGcCandidate(plane, b);
        LeadsNext(pl, c.pagesPerBlock, start, b, id);
        if plane.blocks[b].invalidPageCount > plane.blocks[id].invalidPageCount
           && plane.blocks[b].currentWritePageIndex == c.pagesPerBlock && safe {
          id := b;
        }
        b := b + 1;
      }
    }

    /** Random greedy: draw safe blocks until the sample is large enough, then take the full one
        with the most invalid pages. An empty sample has no first element. */
    method SelectRga(plane: PlaneBookKeeping) returns (r: Option<nat>, ghost sample: set<nat>)
      requires Fits(plane)
      modifies this`draws
      ensures Fits(plane)
      ensures Sampled(plane.Value(), c.pagesPerBlock, rgaSetSize, old(draws), r, sample, draws)
    {
      hide PlaneBookKeeping.Value, PlaneBookKeeping.Shaped, SafeCandidate;
      ghost var pl, drawn := plane.Value(), draws;
      PlaneDimensions(plane);
      var candidates := DrawSample(plane);
      sample := candidates;
      EligibleGrows(pl, drawn, |drawn| - |draws|);
      assert draws == [] ==> drawn[..|drawn| - |draws|] == drawn;
      if |candidates| < rgaSetSize || candidates == {} {
        return None, sample;
      }
      var best := MostInvalid(plane, candidates);
      r := Some(best);
    }

    /** Draw until the sample is large enough or the draws run out. */
    method DrawSample(plane: PlaneBookKeeping) returns (candidates: set<nat>)
      requires Fits(plane)
      modifies this`draws
      ensures Fits(plane)
      ensures var n := |old(draws)| - |draws|;
              && 0 <= n && draws == old(draws)[n..]
              && candidates == Eligible(plane.Value(), old(draws)[..n]) && |candidates| <= rgaSetSize
      ensures |candidates| < rgaSetSize ==> draws == []
    {
      hide PlaneBookKeeping.Value, PlaneBookKeeping.Shaped, SafeCandidate, Eligible;
      candidates := {};
      ghost var pl, drawn := plane.Value(), draws;
      PlaneDimensions(plane);
      NothingEligible(pl, drawn);
      ghost var n := 0;
      while |candidates| < rgaSetSize && draws != []
        invariant DrawsInRange() && n <= |drawn| && draws == drawn[n..]
        invariant candidates == Eligible(pl, drawn[..n]) && |candidates| <= rgaSetSize
        decreases |draws|
      {
        var id := GetRandomBlockId();
        var safe := IsSafeGcCandidate(plane, id.value);
        EligibleNext(pl, drawn, n);
        n := n + 1;
        if id.value !in plane.ongoingEraseBlocks && safe {
          candidates := candidates + {id.value};
        }
      }
    }

    /** The plane's value has the unit's dimensions. */
    lemma PlaneDimensions(plane: PlaneBookKeeping)
      requires Fits(plane)
      ensures var pl := plane.Value();
              && |pl.blocks| == |plane.blocks| == c.blocksPerPlane && pl.erasing == plane.ongoingEraseBlocks
              && pl.history == plane.blockUsageHistory && |pl.pool| == |plane.freeBlockPool|
      ensures var pl := plane.Value();
              forall b :: 0 <= b < |plane.blocks| ==>
                && pl.blocks[b].written == plane.blocks[b].currentWritePageIndex
                && pl.blocks[b].invalidCount == plane.blocks[b].invalidPageCount
    {
      hide PlaneBookKeeping.Shaped;
    }

    /** Among the sample in ascending order: the first element, replaced by every full block
        with more invalid pages. */
    method MostInvalid(plane: PlaneBookKeeping, ids: set<nat>) returns (best: nat)
      requires Fits(plane) && ids != {} && forall x :: x in ids ==> x < c.blocksPerPlane
      ensures best in ids
      ensures forall x :: x in ids && plane.blocks[x].currentWritePageIndex == c.pagesPerBlock ==>
                plane.blocks[x].invalidPageCount <= plane.blocks[best].invalidPageCount
      ensures IsLeast(ids, best) || plane.blocks[best].currentWritePageIndex == c.pagesPerBlock
      ensures forall x :: x in ids && x < best
                          && (plane.blocks[x].currentWritePageIndex == c.pagesPerBlock || IsLeast(ids, x)) ==>
                plane.blocks[x].invalidPageCount < plane.blocks[best].invalidPageCount
    {
      best := Least(ids);
      ghost var first := best;
      var b := 0;
      while b < c.blocksPerPlane
        invariant 0 <= b <= c.blocksPerPlane && best in ids
        invariant best == first
                  || (best < b && plane.blocks[best].currentWritePageIndex == c.pagesPerBlock
                      && plane.blocks[first].invalidPageCount < plane.blocks[best].invalidPageCount)
        invariant forall x :: x in ids && x < b && plane.blocks[x].currentWritePageIndex == c.pagesPerBlock ==>
                    && plane.blocks[x].invalidPageCount <= plane.blocks[best].invalidPageCount
                    && (x < best ==> plane.blocks[x].invalidPageCount < plane.blocks[best].invalidPageCount)
      {
        if b in ids && plane.blocks[b].invalidPageCount > plane.blocks[best].invalidPageCount
           && plane.blocks[b].currentWritePageIndex == c.pagesPerBlock {
          best := b;
        }
        b := b + 1;
      }
    }

    /** The first element of an ordered set of block ids. */
    method Least(ids: set<nat>) returns (least: nat)
      requires ids != {} && forall x :: x in ids ==> x < c.blocksPerPlane
      ensures IsLeast(ids, least)
    {
      ghost var member :| member in ids;
      least := 0;
      while least !in ids
        invariant least <= member && forall x :: x in ids ==> least <= x
        decreases member - least
      {
        least := least + 1;
      }
    }

    /** A random block, redrawn while unsafe, but no more often than there are blocks. */
    method SelectRandom(plane: PlaneBookKeeping) returns (r: Option<nat>)
      requires Fits(plane)
      modifies this`draws
      ensures Fits(plane)
      ensures Selected(plane.Value(), c.pagesPerBlock, None, old(draws), r, draws)
    {
      hide PlaneBookKeeping.Value, PlaneBookKeeping.Shaped, SafeCandidate, UnsafeDraws, Acceptable;
      ghost var pl, drawn := plane.Value(), draws;
      PlaneDimensions(plane);
      r := GetRandomBlockId();
      if r == None {
        return;
      }
      var repeat := 0;
      var safe := IsSafeGcCandidate(plane, r.value);
      NoUnsafeDraws(pl, c.pagesPerBlock, None, drawn);
      while !safe && repeat < c.blocksPerPlane
        invariant DrawsInRange() && repeat <= c.blocksPerPlane && repeat < |drawn|
        invariant draws == drawn[repeat + 1..] && r == Some(drawn[repeat])
        invariant safe <==> SafeCandidate(pl, r.value)
        invariant UnsafeDraws(pl, c.pagesPerBlock, None, drawn[..repeat]) == repeat
        invariant Unsettled(pl, c.pagesPerBlock, None, drawn, repeat)
        decreases c.blocksPerPlane - repeat
      {
        NextDraw(pl, c.pagesPerBlock, None, drawn, repeat);
        repeat := repeat + 1;
        var next := GetRandomBlockId();
        if next == None {
          return None;
        }
        r := next;
        safe := IsSafeGcCandidate(plane, r.value);
      }
      NextDraw(pl, c.pagesPerBlock, None, drawn, repeat);
    }

    /** A random full block with at least `least` invalid pages, redrawn while unsafe, the unsafe
        redraws being limited; `least` is 0 for the policy without a threshold. */
    method SelectRandomFull(plane: PlaneBookKeeping, least: nat) returns (r: Option<nat>)
      requires Fits(plane)
      modifies this`draws
      ensures Fits(plane)
      ensures Selected(plane.Value(), c.pagesPerBlock, Some(least), old(draws), r, draws)
      ensures r.Some? ==>
                && r.value < |plane.blocks| && plane.blocks[r.value].currentWritePageIndex >= c.pagesPerBlock
                && plane.blocks[r.value].invalidPageCount >= least
    {
      hide PlaneBookKeeping.Value, PlaneBookKeeping.Shaped, SafeCandidate, UnsafeDraws;
      ghost var pl, drawn := plane.Value(), draws;
      PlaneDimensions(plane);
      r := GetRandomBlockId();
      if r == None {
        return;
      }
      var repeat := 0;
      ghost var n := 0;
      NoUnsafeDraws(pl, c.pagesPerBlock, Some(least), drawn);
      while true
        invariant DrawsInRange() && n < |drawn| && draws == drawn[n + 1..] && r == Some(drawn[n])
        invariant repeat == UnsafeDraws(pl, c.pagesPerBlock, Some(least), drawn[..n]) <= c.blocksPerPlane
        invariant Unsettled(pl, c.pagesPerBlock, Some(least), drawn, n)
        decreases |draws|
      {
        var b := plane.blocks[r.value];
        NextDraw(pl, c.pagesPerBlock, Some(least), drawn, n);
        if b.currentWritePageIndex >= c.pagesPerBlock && b.invalidPageCount >= least {
          var safe := IsSafeGcCandidate(plane, r.value);
          if safe || repeat >= c.blocksPerPlane {
            return;
          }
          repeat := repeat + 1;
        }
        n := n + 1;
        r := GetRandomBlockId();
        if r == None {
          return;
        }
      }
    }

    /** CheckGcRequired. Its only lasting effect on the plane is the first-in-first-out pop; the
        candidate, which the code drops, is returned. As written the greedy case compares one
        block and falls through into the random greedy case, so it selects what that selects. */
    method CheckGcRequired(freeBlockPoolSize: nat, plane: PlaneBookKeeping)
      returns (candidate: Option<nat>, ghost sample: set<nat>)
      requires Fits(plane) && plane.blockUsageHistory != []
      requires freeBlockPoolSize == |plane.freeBlockPool|
      modifies this`draws, plane`blockUsageHistory
      ensures Fits(plane) && plane.Value() == GcCheckEffect(c, old(plane.Value()))
      ensures old(plane.Value()).history != []
      ensures Chosen(c, old(plane.Value()), rgaSetSize, randomPpThreshold, old(draws), candidate, sample, draws)
      ensures candidate.Some? && c.policy in {RandomP, RandomPP} ==>
                && candidate.value < |plane.blocks|
                && plane.blocks[candidate.value].currentWritePageIndex >= c.pagesPerBlock
                && (c.policy == RandomPP ==> plane.blocks[candidate.value].invalidPageCount >= randomPpThreshold)
    {
      hide Selected, Sampled, SafeCandidate;
      candidate, sample := None, {};
      if freeBlockPoolSize >= c.gcThreshold || |plane.ongoingEraseBlocks| >= c.maxGc {
        return;
      }
      match c.policy
      case Greedy =>
        var id := 0;
        if 0 in plane.ongoingEraseBlocks {
          id := 1;
        }
        if 1 < c.blocksPerPlane {
          var safe := IsSafeGcCandidate(plane, 1);
          if plane.blocks[1].invalidPageCount > plane.blocks[id].invalidPageCount
             && plane.blocks[1].currentWritePageIndex == c.pagesPerBlock && safe {
            id := 1;
          }
        }
        candidate, sample := SelectRga(plane);
      case Rga => candidate, sample := SelectRga(plane);
      case Random => candidate := SelectRandom(plane);
      case RandomP => candidate := SelectRandomFull(plane, 0);
      case RandomPP => candidate := SelectRandomFull(plane, randomPpThreshold);
      case Fifo =>
        candidate := Some(plane.blockUsageHistory[0]);
        plane.blockUsageHistory := plane.blockUsageHistory[1..];
    }

    /** StopServicingWrites. */
    method StopServicingWrites(plane: PlaneBookKeeping) returns (stop: bool)
      requires Fits(plane)
      ensures stop <==> |plane.Value().pool| < c.maxGc
    {
      stop := |plane.freeBlockPool| < c.maxGc;
    }
  }
}
