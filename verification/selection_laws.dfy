/** What CheckGcRequired selects, said on the blocks of the plane: which block each policy returns,
    and why every draw before it was passed over. */
module SelectionLaws {
  import opened FlashTypes
  import opened FreePool
  import opened PlaneModel
  import opened GcWl

  /** A program or a collection is under way in the block, or it is one of the open blocks. */
  ghost predicate Busy(pl: Plane, b: nat)
    requires b < |pl.blocks|
  {
    || (exists x :: x in pl.open && pl.open[x] == b)
    || pl.blocks[b].ongoingPrograms > 0
    || pl.blocks[b].gc
  }

  ghost predicate InvalidEnough(pl: Plane, pages: nat, least: nat, b: nat)
    requires b < |pl.blocks|
  {
    pl.blocks[b].written >= pages && pl.blocks[b].invalidCount >= least
  }

  /** The draws before draw `i` that were full and invalid enough, but busy. */
  ghost function Redraws(pl: Plane, pages: nat, least: nat, drawn: seq<nat>, i: nat): set<nat>
    requires i <= |drawn| && forall j :: 0 <= j < |drawn| ==> drawn[j] < |pl.blocks|
  {
    set j | 0 <= j < i && InvalidEnough(pl, pages, least, drawn[j]) && Busy(pl, drawn[j])
  }

  lemma SafeIsNotBusy(pl: Plane, b: nat)
    requires b < |pl.blocks|
    ensures SafeCandidate(pl, b) <==> !Busy(pl, b)
  {
  }

  lemma NextRedraw(pl: Plane, pages: nat, least: nat, drawn: seq<nat>, i: nat)
    requires i < |drawn| && forall j :: 0 <= j < |drawn| ==> drawn[j] < |pl.blocks|
    ensures |Redraws(pl, pages, least, drawn, i + 1)|
            == |Redraws(pl, pages, least, drawn, i)|
               + if InvalidEnough(pl, pages, least, drawn[i]) && Busy(pl, drawn[i]) then 1 else 0
  {
    hide Busy, InvalidEnough;
    var s := Redraws(pl, pages, least, drawn, i);
    assert i !in s;
    if InvalidEnough(pl, pages, least, drawn[i]) && Busy(pl, drawn[i]) {
      assert Redraws(pl, pages, least, drawn, i + 1) == s + {i};
    } else {
      assert Redraws(pl, pages, least, drawn, i + 1) == s;
    }
  }

  /** The unsafe draws that the selection counts are these. */
  lemma {:induction false} RedrawsAreCounted(pl: Plane, pages: nat, least: nat, drawn: seq<nat>, i: nat)
    requires i <= |drawn| && InPlane(pl, drawn)
    ensures UnsafeDraws(pl, pages, Some(least), drawn[..i]) == |Redraws(pl, pages, least, drawn, i)|
  {
    if i == 0 {
      assert Redraws(pl, pages, least, drawn, 0) == {};
    } else {
      RedrawsAreCounted(pl, pages, least, drawn, i - 1);
      NextRedraw(pl, pages, least, drawn, i - 1);
      NextDraw(pl, pages, Some(least), drawn, i - 1);
      SafeIsNotBusy(pl, drawn[i - 1]);
      hide SafeCandidate, Busy, Redraws, UnsafeDraws;
    }
  }

  /** Draw `i` is passed over: it is not full, has too few invalid pages, or is busy while redraws
      are left. */
  ghost predicate PassedOver(pl: Plane, pages: nat, least: nat, drawn: seq<nat>, i: nat)
    requires i < |drawn| && forall j :: 0 <= j < |drawn| ==> drawn[j] < |pl.blocks|
  {
    || pl.blocks[drawn[i]].written < pages
    || pl.blocks[drawn[i]].invalidCount < least
    || (Busy(pl, drawn[i]) && |Redraws(pl, pages, least, drawn, i)| < |pl.blocks|)
  }

  lemma SettlesOrPasses(pl: Plane, pages: nat, least: nat, drawn: seq<nat>, i: nat)
    requires InPlane(pl, drawn) && i < |drawn|
    ensures Settles(pl, pages, Some(least), drawn, i) <==> !PassedOver(pl, pages, least, drawn, i)
  {
    RedrawsAreCounted(pl, pages, least, drawn, i);
    SafeIsNotBusy(pl, drawn[i]);
    hide SafeCandidate, Busy, Redraws, UnsafeDraws;
  }

  /** The invalid pages a block must have under the policies that ask for full blocks. */
  ghost function Demanded(c: Config, threshold: nat): nat
  {
    if c.policy == RandomPP then threshold else 0
  }

  /** The two policies that draw full blocks: the draws before the last one used were all passed
      over; the candidate is the last one used, full, with the invalid pages demanded, and busy only
      after as many busy redraws as the plane has blocks. There is no candidate exactly when every
      draw is passed over. Under the plane invariant the candidate is neither open nor free. */
  lemma FullBlockDrawn(c: Config, pl: Plane, size: nat, threshold: nat, drawn: seq<nat>, r: Option<nat>,
                       sample: set<nat>, left: seq<nat>) returns (n: nat)
    requires pl.history != [] && c.policy in {RandomP, RandomPP} && |pl.pool| < c.gcThreshold && |pl.erasing| < c.maxGc
    requires Chosen(c, pl, size, threshold, drawn, r, sample, left)
    ensures n <= |drawn| && left == drawn[n..] && forall j :: 0 <= j < |drawn| ==> drawn[j] < |pl.blocks|
    ensures var least := Demanded(c, threshold);
            && (forall i: nat :: i + 1 < n ==> PassedOver(pl, c.pagesPerBlock, least, drawn, i))
            && (r == None ==>
                  n == |drawn| && forall i: nat :: i < n ==> PassedOver(pl, c.pagesPerBlock, least, drawn, i))
            && (r.Some? ==>
                  && n > 0 && r.value == drawn[n - 1]
                  && pl.blocks[r.value].written >= c.pagesPerBlock && pl.blocks[r.value].invalidCount >= least
                  && (Busy(pl, r.value) ==>
                        |Redraws(pl, c.pagesPerBlock, least, drawn, n - 1)| >= |pl.blocks|))
    ensures PlaneInv(c, pl) && r.Some? ==>
              && pl.blocks[r.value].written == c.pagesPerBlock
              && (forall x :: x in pl.open ==> pl.open[x] != r.value)
              && forall i :: 0 <= i < |pl.pool| ==> pl.pool[i].block != r.value
  {
    var least := Demanded(c, threshold);
    n := |drawn| - |left|;
    assert Selected(pl, c.pagesPerBlock, Some(least), drawn, r, left);
    forall i: nat | i < |drawn|
      ensures Settles(pl, c.pagesPerBlock, Some(least), drawn, i) <==> !PassedOver(pl, c.pagesPerBlock, least, drawn, i)
    {
      SettlesOrPasses(pl, c.pagesPerBlock, least, drawn, i);
    }
    hide Settles, Busy, Redraws, Chosen, Demanded;
    if PlaneInv(c, pl) && r.Some? { FullIsClosed(c, pl, r.value); }
    hide PlaneInv;
  }

  lemma FullIsClosed(c: Config, pl: Plane, b: nat)
    requires PlaneInv(c, pl) && b < |pl.blocks| && pl.blocks[b].written >= c.pagesPerBlock
    ensures pl.blocks[b].written == c.pagesPerBlock
    ensures (forall x :: x in pl.open ==> pl.open[x] != b) && forall i :: 0 <= i < |pl.pool| ==> pl.pool[i].block != b
  {
    assert BlockOk(c.pagesPerBlock, pl.blocks[b]);
  }

  /** The first `m` draws are busy blocks, and no more than the plane has blocks. */
  ghost predicate BusyBefore(pl: Plane, drawn: seq<nat>, m: nat)
    requires m <= |drawn| && forall j :: 0 <= j < |drawn| ==> drawn[j] < |pl.blocks|
  {
    m <= |pl.blocks| && forall i :: 0 <= i < m ==> Busy(pl, drawn[i])
  }

  /** The random policy: the candidate is the first draw that is not busy, or the one after as many
      busy draws as the plane has blocks. */
  lemma AnyBlockDrawn(c: Config, pl: Plane, size: nat, threshold: nat, drawn: seq<nat>, r: Option<nat>,
                      sample: set<nat>, left: seq<nat>) returns (n: nat)
    requires pl.history != [] && c.policy == Random && |pl.pool| < c.gcThreshold && |pl.erasing| < c.maxGc
    requires Chosen(c, pl, size, threshold, drawn, r, sample, left)
    ensures n <= |drawn| && left == drawn[n..] && forall j :: 0 <= j < |drawn| ==> drawn[j] < |pl.blocks|
    ensures r == None ==> n == |drawn| && BusyBefore(pl, drawn, n)
    ensures r.Some? ==>
              && n > 0 && r.value == drawn[n - 1] && BusyBefore(pl, drawn, n - 1)
              && (Busy(pl, r.value) ==> n - 1 == |pl.blocks|)
  {
    n := |drawn| - |left|;
    var m := AnySelected(pl, c.pagesPerBlock, drawn, r, left);
    hide Chosen, Busy, BusyBefore, Selected;
  }

  lemma AnySelected(pl: Plane, pages: nat, drawn: seq<nat>, r: Option<nat>, left: seq<nat>) returns (m: nat)
    requires Selected(pl, pages, None, drawn, r, left)
    ensures InPlane(pl, drawn) && |left| <= |drawn| && left == drawn[|drawn| - |left|..]
    ensures r == None ==> left == [] && m == |drawn|
    ensures r.Some? ==> m == |drawn| - |left| - 1 && r.value == drawn[m] && (Busy(pl, r.value) ==> m == |pl.blocks|)
    ensures BusyBefore(pl, drawn, m)
  {
    m := if r.Some? then |drawn| - |left| - 1 else |drawn|;
    assert Unsettled(pl, pages, None, drawn, m);
    BusyUpTo(pl, pages, drawn, m);
    if r.Some? {
      NextDraw(pl, pages, None, drawn, m);
      SafeIsNotBusy(pl, r.value);
    }
    hide SafeCandidate, Busy, BusyBefore, UnsafeDraws, Unsettled;
  }

  /** As long as no draw has settled, every draw was busy and counted. */
  lemma {:induction false} BusyUpTo(pl: Plane, pages: nat, drawn: seq<nat>, m: nat)
    requires InPlane(pl, drawn) && m <= |drawn| && Unsettled(pl, pages, None, drawn, m)
    ensures UnsafeDraws(pl, pages, None, drawn[..m]) == m
    ensures BusyBefore(pl, drawn, m)
  {
    if m > 0 {
      BusyUpTo(pl, pages, drawn, m - 1);
      NextDraw(pl, pages, None, drawn, m - 1);
      SafeIsNotBusy(pl, drawn[m - 1]);
      assert !Settles(pl, pages, None, drawn, m - 1);
      hide SafeCandidate, Busy, UnsafeDraws;
    }
  }

  ghost predicate First(ids: set<nat>, b: nat) {
    forall x :: x in ids ==> b <= x
  }

  /** The sampling policies, and the greedy one as written: the sample consists of `size` drawn
      blocks that are neither busy nor being erased; the candidate is the first block of it, or the
      first of its most invalid full ones if they are more invalid. There is none exactly when no
      sample is asked for or the draws hold too few such blocks. */
  lemma BestOfSample(c: Config, pl: Plane, size: nat, threshold: nat, drawn: seq<nat>, r: Option<nat>,
                     sample: set<nat>, left: seq<nat>)
    requires pl.history != [] && c.policy in {Greedy, Rga} && |pl.pool| < c.gcThreshold && |pl.erasing| < c.maxGc
    requires Chosen(c, pl, size, threshold, drawn, r, sample, left)
    ensures r == None
            <==> size == 0 || |set b | b in drawn && b < |pl.blocks| && b !in pl.erasing && !Busy(pl, b)| < size
    ensures r.Some? ==>
              && |sample| == size && r.value in sample
              && (forall b :: b in sample ==> b in drawn && b < |pl.blocks| && b !in pl.erasing && !Busy(pl, b))
              && (forall b :: b in sample && pl.blocks[b].written == c.pagesPerBlock ==>
                    pl.blocks[b].invalidCount <= pl.blocks[r.value].invalidCount)
              && (First(sample, r.value) || pl.blocks[r.value].written == c.pagesPerBlock)
              && forall b ::
                    b in sample && b < r.value && (pl.blocks[b].written == c.pagesPerBlock || First(sample, b)) ==>
                    pl.blocks[b].invalidCount < pl.blocks[r.value].invalidCount
  {
    assert Sampled(pl, c.pagesPerBlock, size, drawn, r, sample, left);
    forall b: nat | b < |pl.blocks| ensures SafeCandidate(pl, b) <==> !Busy(pl, b) { SafeIsNotBusy(pl, b); }
    hide Chosen, Busy, SafeCandidate;
    assert (set b | b in drawn && b < |pl.blocks| && b !in pl.erasing && !Busy(pl, b)) == Eligible(pl, drawn);
  }

  /** No collection is due while the pool holds as many blocks as the threshold, or as many erases
      are under way as are allowed; then nothing is selected and no draw used. */
  lemma NotDueSelectsNothing(c: Config, pl: Plane, size: nat, threshold: nat, drawn: seq<nat>, r: Option<nat>,
                             sample: set<nat>, left: seq<nat>)
    requires pl.history != [] && (|pl.pool| >= c.gcThreshold || |pl.erasing| >= c.maxGc)
    requires Chosen(c, pl, size, threshold, drawn, r, sample, left)
    ensures r == None && left == drawn
  {
  }

  /** The greedy scan run to its bound. It starts from block 0, or from block 1 while block 0 is being
      erased, and ends there unless a later full block that is not busy is more invalid; then it
      ends at the first of the most invalid of these. */
  lemma GreedyIsMostInvalid(pl: Plane, pages: nat, id: nat)
    requires Greediest(pl, pages, id) && |pl.blocks| >= 2
    ensures var start := if 0 in pl.erasing then 1 else 0;
            && id < |pl.blocks| && pl.blocks[start].invalidCount <= pl.blocks[id].invalidCount
            && (forall b: nat :: 1 <= b < |pl.blocks| && pl.blocks[b].written == pages && !Busy(pl, b) ==>
                  pl.blocks[b].invalidCount <= pl.blocks[id].invalidCount)
            && (id != start ==>
                  && pl.blocks[id].written == pages && !Busy(pl, id)
                  && pl.blocks[id].invalidCount > pl.blocks[start].invalidCount
                  && forall b: nat :: 1 <= b < id && pl.blocks[b].written == pages && !Busy(pl, b) ==>
                       pl.blocks[b].invalidCount < pl.blocks[id].invalidCount)
  {
    forall b: nat | b < |pl.blocks|
      ensures Collectable(pl, pages, b) <==> pl.blocks[b].written == pages && !Busy(pl, b)
    {
      SafeIsNotBusy(pl, b);
      hide SafeCandidate, Busy;
    }
    hide Collectable, Busy;
  }
}
