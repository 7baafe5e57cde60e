/** Ongoing-transaction counters and the collection flag of a block. */
module Marks {
  import opened PlaneModel

  /** One of the six ongoing-transaction counters and flags moves. */
  datatype Mark = ReadStarted | ReadFinished | ProgramStarted | ProgramFinished | GcStarted | GcFinished

  function Marked(b: Block, m: Mark): Block {
    match m
    case ReadStarted => b.(ongoingReads := b.ongoingReads + 1)
    case ReadFinished => b.(ongoingReads := b.ongoingReads - 1)
    case ProgramStarted => b.(ongoingPrograms := b.ongoingPrograms + 1)
    case ProgramFinished => b.(ongoingPrograms := b.ongoingPrograms - 1)
    case GcStarted => b.(gc := true)
    case GcFinished => b.(gc := false)
  }

  /** The plane with one counter or flag of block `b` moved. */
  function MarkedIn(pl: Plane, b: nat, m: Mark): Plane
    requires b < |pl.blocks|
  {
    pl.(blocks := pl.blocks[b := Marked(pl.blocks[b], m)])
  }

  /** `b'` is `b` with the one counter or flag that `m` names moved. */
  ghost predicate MarkTaken(b: Block, m: Mark, b': Block) {
    && b' == b.(ongoingReads := b'.ongoingReads, ongoingPrograms := b'.ongoingPrograms, gc := b'.gc)
    && b'.ongoingReads == b.ongoingReads + (if m == ReadStarted then 1 else if m == ReadFinished then -1 else 0)
    && b'.ongoingPrograms
       == b.ongoingPrograms + (if m == ProgramStarted then 1 else if m == ProgramFinished then -1 else 0)
    && (b'.gc <==> if m == GcStarted then true else if m == GcFinished then false else b.gc)
  }

  /** Marking a block of a plane moves the one counter or flag named, by one, and nothing else of
      the plane. */
  lemma MarkMovesOne(pl: Plane, b: nat, m: Mark)
    requires b < |pl.blocks|
    ensures var pl' := MarkedIn(pl, b, m);
            && pl' == pl.(blocks := pl'.blocks) && |pl'.blocks| == |pl.blocks|
            && MarkTaken(pl.blocks[b], m, pl'.blocks[b])
            && forall x: nat :: x < |pl.blocks| && x != b ==> pl'.blocks[x] == pl.blocks[x]
  {
  }

  function MarkedAll(b: Block, marks: seq<Mark>): Block {
    if marks == [] then b else Marked(MarkedAll(b, marks[..|marks| - 1]), marks[|marks| - 1])
  }

  /** How often `m` occurs. */
  function Occurrences(marks: seq<Mark>, m: Mark): nat {
    if marks == [] then 0
    else Occurrences(marks[..|marks| - 1], m) + if marks[|marks| - 1] == m then 1 else 0
  }

  /** A collection was started and not finished since. */
  function Collecting(was: bool, marks: seq<Mark>): bool {
    if marks == [] then was
    else if marks[|marks| - 1] == GcStarted then true
    else if marks[|marks| - 1] == GcFinished then false
    else Collecting(was, marks[..|marks| - 1])
  }

  /** After any calls each counter is its transactions started less those finished, the flag says
      whether a collection is under way, and nothing else of the block has changed. */
  lemma {:induction false} CountersBalance(b: Block, marks: seq<Mark>)
    ensures MarkedAll(b, marks)
            == b.(ongoingReads := b.ongoingReads + Occurrences(marks, ReadStarted) - Occurrences(marks, ReadFinished),
                  ongoingPrograms := b.ongoingPrograms + Occurrences(marks, ProgramStarted)
                                     - Occurrences(marks, ProgramFinished),
                  gc := Collecting(b.gc, marks))
  {
    if marks != [] {
      CountersBalance(b, marks[..|marks| - 1]);
    }
  }
}
