/** What the cached mapping table holds after a run, said from the operations alone. */
module CmtHistory {
  import opened FlashTypes
  import opened Bits
  import opened CachedMapping

  /** The key an operation names, if it names one. */
  ghost predicate Names(op: CmtOp, k: UniqueKey) {
    !op.OpEvict? && k == KeyFor(op.stream, op.lpa)
  }

  // ----- which operations fail -----

  /** Exactly when each operation fails, and with which fault: a reservation on a present key or,
      failing that, on a full table; a lookup, update, insertion or cleaning on a key that is not
      usable; a fill on a key that is not waiting; an eviction on an empty table. */
  lemma FaultsExact(t: Cmt, op: CmtOp)
    requires CmtInv(t)
    ensures var o := Apply(t, op);
            match op
            case OpEvict => if t.entries == map[] then o == CmtFailed(NothingToEvict) else o.CmtOk?
            case OpReserve(s, l) =>
              if KeyFor(s, l) in t.entries then o == CmtFailed(Duplicate)
              else if |t.entries| >= t.capacity then o == CmtFailed(Overfull)
              else o.CmtOk?
            case OpFill(s, l, _, _) =>
              if KeyFor(s, l) in t.entries && t.entries[KeyFor(s, l)].status == Waiting then o.CmtOk?
              else o == CmtFailed(NotUsable)
            case _ =>
              var k := KeyFor(op.stream, op.lpa);
              if k in t.entries && t.entries[k].status == Usable then o.CmtOk? else o == CmtFailed(NotUsable)
  {
    hide KeyFor, Lru.Touch;
    if op.OpEvict? && t.entries != map[] {
      var k :| k in t.entries;
      assert k in t.order && k in t.entries.Keys;
    }
  }

  /** Only reservations add keys, and only evictions remove one. */
  lemma KeysChange(t: Cmt, op: CmtOp)
    requires CmtInv(t) && Apply(t, op).CmtOk?
    ensures var t' := Apply(t, op).table;
            match op
            case OpReserve(s, l) => t'.entries.Keys == t.entries.Keys + {KeyFor(s, l)}
            case OpEvict => t.order != [] && t'.entries == t.entries - {t.order[|t.order| - 1]}
            case _ => t'.entries.Keys == t.entries.Keys
  {
    hide KeyFor, Lru.Touch;
    if op.OpEvict? {
      var k :| k in t.entries.Keys;
      assert k in t.order;
    }
  }

  // ----- what a slot holds -----

  /** What a slot holds: the page number and sector bitmap, and whether it must be written back. */
  datatype Held = Empty | Holding(ppa: nat, bitmap: bv64, dirty: bool)

  /** The slot of `k` from the operations since it was last reserved: nothing until it is filled;
      then what the last fill, insertion or update gave it, to be written back exactly if an update
      came after the last fill, insertion or cleaning. */
  ghost function History(ops: seq<CmtOp>, k: UniqueKey): Held {
    if ops == [] then Empty
    else
      var before, last := History(ops[..|ops| - 1], k), ops[|ops| - 1];
      if !Names(last, k) then before
      else
        match last
        case OpReserve(_, _) => Empty
        case OpFill(_, _, ppa, bitmap) => Holding(ppa, bitmap, false)
        case OpInsert(_, _, ppa, bitmap) => Holding(ppa, bitmap, false)
        case OpUpdate(_, _, ppa, bitmap) => Holding(ppa, bitmap, true)
        case OpMakeClean(_, _) => if before.Holding? then before.(dirty := false) else before
        case _ => before
  }

  /** Operation `i` gives the slot of `k` its page number and bitmap. */
  ghost predicate Stores(op: CmtOp, k: UniqueKey) {
    Names(op, k) && (op.OpFill? || op.OpInsert? || op.OpUpdate?)
  }

  /** What `History` means, in terms of last operations: after a storing operation and with no
      other one and no reservation of the key since, the slot holds what that one stored. */
  lemma {:induction false} LastStoredIsHeld(ops: seq<CmtOp>, k: UniqueKey, i: nat)
    requires i < |ops| && Stores(ops[i], k)
    requires forall j :: i < j < |ops| && Names(ops[j], k) ==> !ops[j].OpReserve? && !Stores(ops[j], k)
    ensures var h := History(ops, k); h.Holding? && h.ppa == ops[i].ppa && h.bitmap == ops[i].bitmap
    ensures History(ops, k).dirty <==>
              ops[i].OpUpdate? && forall j :: i < j < |ops| && Names(ops[j], k) ==> !ops[j].OpMakeClean?
  {
    hide Names;
    if i < |ops| - 1 {
      LastStoredIsHeld(ops[..|ops| - 1], k, i);
    }
  }

  /** A slot entry says what the history says. */
  ghost predicate Agrees(e: CmtEntry, h: Held) {
    match h
    case Empty => e.status == Waiting && !e.dirty
    case Holding(ppa, bitmap, dirty) => e.status == Usable && e.ppa == ppa && e.bitmap == bitmap && e.dirty == dirty
  }

  lemma {:induction false} StepAgrees(t: Cmt, op: CmtOp, ops: seq<CmtOp>, k: UniqueKey)
    requires Apply(t, op).CmtOk? && ops != [] && ops[|ops| - 1] == op
    requires k in t.entries ==> Agrees(t.entries[k], History(ops[..|ops| - 1], k))
    ensures var t' := Apply(t, op).table; k in t'.entries ==> Agrees(t'.entries[k], History(ops, k))
  {
    hide KeyFor, Lru.Touch;
  }

  /** Over every run from an empty table: a key in it is usable exactly if it was filled since it was
      reserved; it then has the page number and bitmap of the last fill, insertion or update, and is
      dirty exactly if an update came after the last fill, insertion or cleaning. */
  lemma {:induction false} SlotsHoldHistory(capacity: nat, ops: seq<CmtOp>, k: UniqueKey)
    requires RunCmt(EmptyCmt(capacity), ops).Ran?
    ensures var t := RunCmt(EmptyCmt(capacity), ops).table; k in t.entries ==> Agrees(t.entries[k], History(ops, k))
  {
    if ops != [] {
      SlotsHoldHistory(capacity, ops[..|ops| - 1], k);
      var before := RunCmt(EmptyCmt(capacity), ops[..|ops| - 1]);
      hide Apply, Agrees, History;
      StepAgrees(before.table, ops[|ops| - 1], ops, k);
    }
  }

  lemma NewKeyIsReserved(t: Cmt, op: CmtOp, k: UniqueKey)
    requires CmtInv(t) && Apply(t, op).CmtOk? && k in Apply(t, op).table.entries && k !in t.entries
    ensures op.OpReserve? && Names(op, k)
  {
    KeysChange(t, op);
    hide Apply, KeyFor, CmtInv;
  }

  /** And a key is in the table only after a reservation that completed. */
  lemma {:induction false} OnlyReservedKeys(capacity: nat, ops: seq<CmtOp>, k: UniqueKey) returns (i: nat)
    requires RunCmt(EmptyCmt(capacity), ops).Ran? && k in RunCmt(EmptyCmt(capacity), ops).table.entries
    ensures i < |ops| && ops[i].OpReserve? && Names(ops[i], k)
  {
    hide Apply, Names, CmtInv, Lru.ByRecency;
    var n := |ops| - 1;
    var before := RunCmt(EmptyCmt(capacity), ops[..n]);
    if k in before.table.entries {
      i := OnlyReservedKeys(capacity, ops[..n], k);
    } else {
      i := n;
      RunKeepsCmt(capacity, ops[..n]);
      NewKeyIsReserved(before.table, ops[n], k);
    }
  }
}
