/** A collection is a run of translation-layer steps, so whatever holds over runs holds for it. */
module CollectionRuns {
  import opened FlashTypes
  import opened PlaneModel
  import opened PlaneProofs
  import opened DeviceModel
  import opened FtlModel
  import opened FtlSteps
  import opened GcCycle
  import opened FtlRuns

  /** A request of the host, as opposed to a step of the collector. */
  predicate HostStep(step: Step) { step.WriteStep? || step.ReadStep? }

  /** The host's requests among the steps of a run. */
  ghost function Requests(steps: seq<Step>): seq<Step> {
    if steps == [] then []
    else Requests(steps[..|steps| - 1]) + if HostStep(steps[|steps| - 1]) then [steps[|steps| - 1]] else []
  }

  /** GC writes and releases, and with them the barriers and erases of collections. */
  predicate MoveStep(step: Step) { step.GcStep? || step.UnlockStep? }

  predicate CollectorStep(step: Step) { MoveStep(step) || step.BarrierStep? || step.EraseStep? }

  ghost predicate MovesOnly(steps: seq<Step>) {
    forall i :: 0 <= i < |steps| ==> MoveStep(steps[i])
  }

  ghost predicate CollectorOnly(steps: seq<Step>) {
    forall i :: 0 <= i < |steps| ==> CollectorStep(steps[i])
  }

  lemma {:induction false} NoRequests(steps: seq<Step>)
    requires CollectorOnly(steps)
    ensures Requests(steps) == []
  {
    if steps != [] { NoRequests(steps[..|steps| - 1]); }
  }

  lemma {:induction false} RequestsConcat(steps: seq<Step>, more: seq<Step>)
    ensures Requests(steps + more) == Requests(steps) + Requests(more)
  {
    var all := steps + more;
    if more == [] {
      assert all == steps;
    } else {
      RequestsConcat(steps, more[..|more| - 1]);
      assert all[..|all| - 1] == steps + more[..|more| - 1];
    }
  }

  /** `steps`, all of them completing, lead from `st` to `st'`. */
  ghost predicate LeadsTo(c: Config, st: Ftl, steps: seq<Step>, st': Ftl) {
    Run(c, st, steps) == At(st', steps)
  }

  lemma LeadsNowhere(c: Config, st: Ftl)
    ensures LeadsTo(c, st, [], st)
  {
  }

  lemma OneStep(c: Config, st: Ftl, step: Step, st': Ftl)
    requires Allowed(c, st, step) && Exec(c, st, step) == Done(st')
    ensures LeadsTo(c, st, [step], st') && Requests([step]) == if HostStep(step) then [step] else []
  {
    hide Exec, Allowed;
    RunNext(c, st, [], step, st, st');
    assert [] + [step] == [step];
  }

  lemma {:induction false} LeadsFurther(c: Config, st: Ftl, steps: seq<Step>, st1: Ftl, more: seq<Step>, st2: Ftl)
    requires LeadsTo(c, st, steps, st1) && LeadsTo(c, st1, more, st2)
    ensures LeadsTo(c, st, steps + more, st2)
    ensures Requests(steps + more) == Requests(steps) + Requests(more)
  {
    RequestsConcat(steps, more);
    hide Exec, Allowed, Requests, Run;
    if more == [] {
      RunNothing(c, st1);
      assert steps + more == steps;
    } else {
      var last := more[|more| - 1];
      CompletedBefore(c, st1, more, st2);
      var mid := Run(c, st1, more[..|more| - 1]).st;
      LeadsFurther(c, st, steps, st1, more[..|more| - 1], mid);
      RunNext(c, st, steps + more[..|more| - 1], last, mid, st2);
      assert steps + more[..|more| - 1] + [last] == steps + more;
    }
  }

  /** If every step completes, so do all but the last. */
  lemma {:induction false} CompletedBefore(c: Config, st: Ftl, steps: seq<Step>, st': Ftl)
    requires LeadsTo(c, st, steps, st') && steps != []
    ensures var before := Run(c, st, steps[..|steps| - 1]); var last := steps[|steps| - 1];
            && before.At? && before.log == steps[..|steps| - 1]
            && Allowed(c, before.st, last) && Exec(c, before.st, last) == Done(st')
  {
    var before := Run(c, st, steps[..|steps| - 1]);
    ShortLog(c, st, steps[..|steps| - 1]);
    hide Exec, Allowed;
  }

  lemma {:induction false} ShortLog(c: Config, st: Ftl, steps: seq<Step>)
    requires Run(c, st, steps).At?
    ensures |Run(c, st, steps).log| <= |steps|
  {
    hide Exec, Allowed;
    if steps != [] { ShortLog(c, st, steps[..|steps| - 1]); }
  }

  // ----- the steps of a collection -----

  lemma MoveIsSteps(c: Config, st: Ftl, p: PlaneId, b: nat, page: nat) returns (steps: seq<Step>)
    requires MovePage(c, st, p, b, page).Done?
    ensures LeadsTo(c, st, steps, MovePage(c, st, p, b, page).st) && MovesOnly(steps)
  {
    hide GcWrite, KeyAt, LeadsTo, Requests;
    if !ValidPage(st, p, b, page) {
      steps := [];
      LeadsNowhere(c, st);
    } else {
      var k := KeyAt(st, p, b, page);
      var move, st1 := GcStep(k, p, st.table[k].bitmap), GcWrite(c, st, k, p, st.table[k].bitmap).st;
      OneStep(c, st, move, st1);
      OneStep(c, st1, UnlockStep(k), MovePage(c, st, p, b, page).st);
      steps := [move] + [UnlockStep(k)];
      LeadsFurther(c, st, [move], st1, [UnlockStep(k)], MovePage(c, st, p, b, page).st);
    }
  }

  lemma {:induction false} MovesAreSteps(c: Config, st: Ftl, p: PlaneId, b: nat, n: nat) returns (steps: seq<Step>)
    requires MoveUpTo(c, st, p, b, n).Done?
    ensures LeadsTo(c, st, steps, MoveUpTo(c, st, p, b, n).st) && MovesOnly(steps)
  {
    hide MovePage, LeadsTo, Requests;
    if n == 0 {
      steps := [];
      LeadsNowhere(c, st);
    } else {
      var before := MovesAreSteps(c, st, p, b, n - 1);
      var st1 := MoveUpTo(c, st, p, b, n - 1).st;
      var more := MoveIsSteps(c, st1, p, b, n - 1);
      steps := before + more;
      LeadsFurther(c, st, before, st1, more, MoveUpTo(c, st, p, b, n).st);
    }
  }

  /** A collection that completes erases a block that its moves have emptied. */
  lemma EmptiedBeforeErase(c: Config, st: Ftl, p: PlaneId, b: nat) returns (st1: Ftl, st2: Ftl)
    requires FtlInv(c, st) && FullBlock(c, st, p, b) && Collect(c, st, p, b).Done?
    ensures SetBarrier(st, p, b) == Done(st1) && MoveUpTo(c, st1, p, b, c.pagesPerBlock) == Done(st2)
    ensures p in st2.planes && FullyInvalid(c, st2.planes[p], b) && EraseBlock(c, st2, p, b) == Collect(c, st, p, b)
  {
    hide FtlInv, Contents, FitsUpTo, MoveUpTo, EraseBlock, CycleFits, BarrierUpTo, TableMoved, PlaneMoved, FullyInvalid;
    var keys := KeysInBlock(st, p, b, c.pagesPerBlock);
    CollectFails(c, st, p, b);
    BarrierIsExact(c, st, p, b, c.pagesPerBlock);
    st1 := st.(locked := st.locked + keys);
    LocksDoNotMatter(c, st, st1.locked);
    assert KeysInBlock(st1, p, b, c.pagesPerBlock) == keys;
    hide KeysInBlock;
    CycleFitsIsRoom(c, st1, p, b);
    st2 := MovesFit(c, st1, p, b, c.pagesPerBlock);
    VictimIsEmpty(c, st1, st2, p, b);
  }

  /** A collection of a full block is a run of collector steps: barrier, GC writes with releases,
      erase. */
  lemma CollectIsRun(c: Config, st: Ftl, p: PlaneId, b: nat) returns (moves: seq<Step>, st1: Ftl)
    requires FtlInv(c, st) && FullBlock(c, st, p, b) && Collect(c, st, p, b).Done?
    ensures MovesOnly(moves) && LeadsTo(c, st, [BarrierStep(p, b)], st1)
    ensures LeadsTo(c, st1, moves + [EraseStep(p, b)], Collect(c, st, p, b).st)
    ensures LeadsTo(c, st, [BarrierStep(p, b)] + (moves + [EraseStep(p, b)]), Collect(c, st, p, b).st)
  {
    hide FtlInv, LeadsTo, Requests, SetBarrier, MoveUpTo, EraseBlock, FullyInvalid;
    var st2;
    st1, st2 := EmptiedBeforeErase(c, st, p, b);
    var st' := Collect(c, st, p, b).st;
    hide Collect;
    OneStep(c, st, BarrierStep(p, b), st1);
    moves := MovesAreSteps(c, st1, p, b, c.pagesPerBlock);
    OneStep(c, st2, EraseStep(p, b), st');
    LeadsFurther(c, st1, moves, st2, [EraseStep(p, b)], st');
    LeadsFurther(c, st, [BarrierStep(p, b)], st1, moves + [EraseStep(p, b)], st');
  }
}
