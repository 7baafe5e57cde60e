/** What the flash translation layer holds, said without folding: the last value written. */
module DiskHistory {
  import opened FlashTypes
  import opened FtlModel
  import opened FtlRuns

  /** The step names logical page `k` in a read, a write or a relocation. */
  predicate Names(step: Step, k: Key) {
    (step.WriteStep? || step.ReadStep? || step.GcStep?) && step.key == k
  }

  ghost predicate Named(log: seq<Step>, k: Key) {
    exists i :: 0 <= i < |log| && Names(log[i], k)
  }

  /** The bitmap a step applies to the logical page it names. */
  function Bitmap(step: Step): set<nat> {
    match step
    case WriteStep(_, data) => data.Keys
    case ReadStep(_, sectors) => sectors
    case GcStep(_, _, sectors) => sectors
    case _ => {}
  }

  /** The union of all bitmaps applied to `k`; a read applies its own only when it creates the page. */
  ghost function Applied(log: seq<Step>, k: Key): set<nat> {
    if log == [] then {}
    else
      var before, last := log[..|log| - 1], log[|log| - 1];
      Applied(before, k) + if Names(last, k) && (last.ReadStep? ==> !Named(before, k)) then Bitmap(last) else {}
  }

  predicate Writes(step: Step, k: Key, s: nat) {
    step.WriteStep? && step.key == k && s in step.data
  }

  /** The value of the last write to `k` that carries sector `s`; erased if there is none. */
  ghost function LastWritten(log: seq<Step>, k: Key, s: nat): Cell {
    if log == [] then Erased
    else
      var last := log[|log| - 1];
      if Writes(last, k, s) then last.data[s] else LastWritten(log[..|log| - 1], k, s)
  }

  /** No write from step `i` on carries the sector. */
  ghost predicate Untouched(log: seq<Step>, k: Key, s: nat, i: nat) {
    forall j :: i <= j < |log| ==> !Writes(log[j], k, s)
  }

  /** What `LastWritten` means: the value of the write after which no other carries the sector. */
  lemma {:induction false} LastWrittenIsLast(log: seq<Step>, k: Key, s: nat, i: nat)
    requires i < |log| && Writes(log[i], k, s) && Untouched(log, k, s, i + 1)
    ensures LastWritten(log, k, s) == log[i].data[s]
  {
    if i < |log| - 1 {
      assert Untouched(log[..|log| - 1], k, s, i + 1);
      assert !Writes(log[|log| - 1], k, s);
      LastWrittenIsLast(log[..|log| - 1], k, s, i);
    }
  }

  lemma {:induction false} NeverWritten(log: seq<Step>, k: Key, s: nat)
    requires Untouched(log, k, s, 0)
    ensures LastWritten(log, k, s) == Erased
  {
    if log != [] {
      assert Untouched(log[..|log| - 1], k, s, 0);
      NeverWritten(log[..|log| - 1], k, s);
    }
  }

  lemma NamedNext(log: seq<Step>, k: Key)
    requires log != []
    ensures Named(log, k) <==> Named(log[..|log| - 1], k) || Names(log[|log| - 1], k)
  {
    var before := log[..|log| - 1];
    assert forall i :: 0 <= i < |before| ==> before[i] == log[i];
  }

  /** The plain map a log amounts to: the pages named, the union of their bitmaps, and in each
      sector the value last written. */
  lemma {:induction false} ReplayIsHistory(log: seq<Step>, k: Key)
    ensures var disk := Replay(map[], log);
            && (k in disk <==> Named(log, k))
            && (k in disk ==> disk[k].Keys == Applied(log, k))
            && (k in disk ==> forall s :: s in disk[k] ==> disk[k][s] == LastWritten(log, k, s))
    ensures forall s :: s !in Applied(log, k) ==> LastWritten(log, k, s) == Erased
    ensures !Named(log, k) ==> Applied(log, k) == {}
  {
    if log != [] {
      ReplayIsHistory(log[..|log| - 1], k);
      NamedNext(log, k);
      hide Named;
    }
  }

  /** Over every run of the device: a logical page is mapped iff a completed step named it, its
      sector bitmap is the union of all bitmaps applied to it, and reading any of these sectors
      through the mapping finds the last value written, erased if there was none. */
  lemma {:induction false} DeviceHoldsLastWritten(c: Config, ids: set<PlaneId>, keys: set<Key>, steps: seq<Step>,
                                                  k: Key)
    requires GoodDevice(c, ids, keys) && Run(c, Initial(c, ids, keys), steps).At?
    ensures var r := Run(c, Initial(c, ids, keys), steps);
            && (k in r.st.table && r.st.table[k].addr.Some? <==> Named(r.log, k))
            && (Named(r.log, k) ==>
                  && r.st.table[k].bitmap == Applied(r.log, k)
                  && forall s :: s in r.st.table[k].bitmap ==>
                       ReadCell(r.st.store, r.st.table[k].addr.value, s) == LastWritten(r.log, k, s))
  {
    hide FtlInv, Run, Initial, Replay, LastWritten, Applied, Named, ReadCell;
    DeviceRefinesMap(c, ids, keys, steps, k);
    ReplayIsHistory(Run(c, Initial(c, ids, keys), steps).log, k);
  }
}
