/** The cached mapping table: a hash map of slots and a recency list whose nodes the slots point
    to. `Cmt` is its value, the class its implementation. */
module CachedMapping {
  import opened FlashTypes
  import opened Bits
  import opened Lru

  datatype Status = Free | Waiting | Usable

  datatype CmtEntry = CmtEntry(ppa: nat, bitmap: bv64, dirty: bool, status: Status, stream: bv64)

  /** Keys, most recently reserved or retrieved first, and an entry for each. */
  datatype Cmt = Cmt(entries: map<UniqueKey, CmtEntry>, order: seq<UniqueKey>, capacity: nat)

  /** The fatal checks of the table. */
  datatype CmtFault = Duplicate | Overfull | NotUsable | NothingToEvict

  datatype CmtResult = CmtOk(table: Cmt) | CmtFailed(fault: CmtFault)

  ghost predicate CmtInv(t: Cmt) {
    && NoDup(t.order)
    && (forall k :: k in t.order <==> k in t.entries)
    && |t.entries| <= t.capacity
  }

  predicate UsableKey(t: Cmt, k: UniqueKey) {
    k in t.entries && t.entries[k].status == Usable
  }

  function Retrieve(t: Cmt, k: UniqueKey): CmtResult {
    if !UsableKey(t, k) then CmtFailed(NotUsable) else CmtOk(t.(order := Touch(t.order, k)))
  }

  function UpdateEntry(t: Cmt, k: UniqueKey, stream: bv64, ppa: nat, bitmap: bv64): CmtResult {
    if !UsableKey(t, k) then CmtFailed(NotUsable)
    else CmtOk(t.(entries := t.entries[k := t.entries[k].(ppa := ppa, bitmap := bitmap, dirty := true,
                                                          stream := stream)]))
  }

  /** Insert as the code has it: it demands a usable entry. */
  function InsertEntry(t: Cmt, k: UniqueKey, stream: bv64, ppa: nat, bitmap: bv64): CmtResult {
    if !UsableKey(t, k) then CmtFailed(NotUsable)
    else CmtOk(t.(entries := t.entries[k := CmtEntry(ppa, bitmap, false, Usable, stream)]))
  }

  /** Insert as intended: it fills a reserved, waiting entry. */
  function Fill(t: Cmt, k: UniqueKey, stream: bv64, ppa: nat, bitmap: bv64): CmtResult {
    if !(k in t.entries && t.entries[k].status == Waiting) then CmtFailed(NotUsable)
    else CmtOk(t.(entries := t.entries[k := CmtEntry(ppa, bitmap, false, Usable, stream)]))
  }

  function Reserve(t: Cmt, k: UniqueKey, stream: bv64): CmtResult {
    if k in t.entries then CmtFailed(Duplicate)
    else if |t.entries| >= t.capacity then CmtFailed(Overfull)
    else CmtOk(t.(entries := t.entries[k := CmtEntry(0, 0, false, Waiting, stream)], order := [k] + t.order))
  }

  function Evict(t: Cmt): CmtResult
    requires t.entries.Keys != {} ==> t.order != []
  {
    if |t.entries| == 0 then CmtFailed(NothingToEvict)
    else
      var k := t.order[|t.order| - 1];
      CmtOk(t.(entries := t.entries - {k}, order := t.order[..|t.order| - 1]))
  }

  function CleanEntry(t: Cmt, k: UniqueKey): CmtResult {
    if !UsableKey(t, k) then CmtFailed(NotUsable)
    else CmtOk(t.(entries := t.entries[k := t.entries[k].(dirty := false)]))
  }

  // ----- runs -----

  datatype CmtOp =
    | OpReserve(stream: bv64, lpa: bv64)
    | OpRetrieve(stream: bv64, lpa: bv64)
    | OpUpdate(stream: bv64, lpa: bv64, ppa: nat, bitmap: bv64)
    | OpInsert(stream: bv64, lpa: bv64, ppa: nat, bitmap: bv64)
    | OpFill(stream: bv64, lpa: bv64, ppa: nat, bitmap: bv64)
    | OpMakeClean(stream: bv64, lpa: bv64)
    | OpEvict

  ghost function Apply(t: Cmt, op: CmtOp): CmtResult {
    match op
    case OpReserve(s, l) => Reserve(t, KeyFor(s, l), s)
    case OpRetrieve(s, l) => Retrieve(t, KeyFor(s, l))
    case OpUpdate(s, l, p, b) => UpdateEntry(t, KeyFor(s, l), s, p, b)
    case OpInsert(s, l, p, b) => InsertEntry(t, KeyFor(s, l), s, p, b)
    case OpFill(s, l, p, b) => Fill(t, KeyFor(s, l), s, p, b)
    case OpMakeClean(s, l) => CleanEntry(t, KeyFor(s, l))
    case OpEvict => if t.entries.Keys != {} && t.order == [] then CmtFailed(NothingToEvict) else Evict(t)
  }

  /** The key an operation touches, in the order of reservations and retrievals. */
  ghost function Touched(op: CmtOp): seq<UniqueKey> {
    match op
    case OpReserve(s, l) => [KeyFor(s, l)]
    case OpRetrieve(s, l) => [KeyFor(s, l)]
    case _ => []
  }

  /** What a slot was reserved for. */
  datatype Reserved = Reserved(stream: bv64, lpa: bv64)

  /** The table after a run, the touches, and what each key was last reserved as. */
  datatype CmtRun = Aborted | Ran(table: Cmt, touches: seq<UniqueKey>, reserved: map<UniqueKey, Reserved>)

  ghost function RunCmt(t: Cmt, ops: seq<CmtOp>): CmtRun {
    if ops == [] then Ran(t, [], map[])
    else
      var op := ops[|ops| - 1];
      match RunCmt(t, ops[..|ops| - 1])
      case Aborted => Aborted
      case Ran(t1, touches, reserved) =>
        match Apply(t1, op)
        case CmtOk(t2) =>
          Ran(t2, touches + Touched(op),
              if op.OpReserve? then reserved[KeyFor(op.stream, op.lpa) := Reserved(op.stream, op.lpa)] else reserved)
        case _ => Aborted
  }

  function EmptyCmt(capacity: nat): Cmt { Cmt(map[], [], capacity) }

  lemma ApplyKeeps(t: Cmt, op: CmtOp, touches: seq<UniqueKey>)
    requires CmtInv(t) && ByRecency(t.order, touches) && Apply(t, op).CmtOk?
    ensures CmtInv(Apply(t, op).table) && ByRecency(Apply(t, op).table.order, touches + Touched(op))
    ensures Apply(t, op).table.capacity == t.capacity
  {
    hide ByRecency, KeyFor, Reserve, Retrieve;
    assert touches + [] == touches;
    match op
    case OpReserve(s, l) => ReserveKeeps(t, KeyFor(s, l), s, touches);
    case OpRetrieve(s, l) => RetrieveKeeps(t, KeyFor(s, l), touches);
    case OpEvict => EvictKeeps(t, touches);
    case OpUpdate(s, l, p, b) =>
      EntryKeeps(t, KeyFor(s, l), t.entries[KeyFor(s, l)].(ppa := p, bitmap := b, dirty := true, stream := s));
    case OpInsert(s, l, p, b) => EntryKeeps(t, KeyFor(s, l), CmtEntry(p, b, false, Usable, s));
    case OpFill(s, l, p, b) => EntryKeeps(t, KeyFor(s, l), CmtEntry(p, b, false, Usable, s));
    case OpMakeClean(s, l) => EntryKeeps(t, KeyFor(s, l), t.entries[KeyFor(s, l)].(dirty := false));
  }

  lemma EntryKeeps(t: Cmt, k: UniqueKey, e: CmtEntry)
    requires CmtInv(t) && k in t.entries
    ensures CmtInv(t.(entries := t.entries[k := e]))
  {
    assert t.entries[k := e].Keys == t.entries.Keys;
    assert |t.entries[k := e]| == |t.entries[k := e].Keys|;
  }

  lemma ReserveKeeps(t: Cmt, k: UniqueKey, s: bv64, touches: seq<UniqueKey>)
    requires CmtInv(t) && ByRecency(t.order, touches) && Reserve(t, k, s).CmtOk?
    ensures CmtInv(Reserve(t, k, s).table) && ByRecency(Reserve(t, k, s).table.order, touches + [k])
    ensures Reserve(t, k, s).table.capacity == t.capacity
  {
    var t' := Reserve(t, k, s).table;
    assert k !in t.order;
    assert t'.order == Touch(t.order, k);
    TouchByRecency(t.order, touches, k);
    assert t'.entries.Keys == t.entries.Keys + {k};
    forall x ensures x in t'.order <==> x in t'.entries { TouchMembers(t.order, k, x); }
    TouchMembers(t.order, k, k);
    hide ByRecency, Touch;
  }

  lemma RetrieveKeeps(t: Cmt, k: UniqueKey, touches: seq<UniqueKey>)
    requires CmtInv(t) && ByRecency(t.order, touches) && Retrieve(t, k).CmtOk?
    ensures CmtInv(Retrieve(t, k).table) && ByRecency(Retrieve(t, k).table.order, touches + [k])
    ensures Retrieve(t, k).table.capacity == t.capacity
  {
    hide ByRecency, Touch;
    TouchByRecency(t.order, touches, k);
    TouchMembers(t.order, k, k);
    forall x ensures x in Touch(t.order, k) <==> x in t.entries { TouchMembers(t.order, k, x); }
  }

  lemma EvictKeeps(t: Cmt, touches: seq<UniqueKey>)
    requires CmtInv(t) && ByRecency(t.order, touches) && t.order != [] && Evict(t).CmtOk?
    ensures CmtInv(Evict(t).table) && ByRecency(Evict(t).table.order, touches) && Evict(t).table.capacity == t.capacity
  {
    hide ByRecency, NoDup;
    var t', last := Evict(t).table, t.order[|t.order| - 1];
    assert t'.order == t.order[..|t.order| - 1] && t'.entries == t.entries - {last} && t'.capacity == t.capacity;
    hide Evict;
    DropLastByRecency(t.order, touches);
    DropLastKeys(t.order);
    SmallerMap(t.entries, last);
    forall x ensures x in t'.order <==> x in t'.entries {
      assert x in t'.order <==> x in t.order && x != last;
    }
  }

  lemma SmallerMap<K, V>(m: map<K, V>, k: K)
    ensures |m - {k}| <= |m|
  {
    assert (m - {k}).Keys == m.Keys - {k};
    assert |(m - {k}).Keys| <= |m.Keys|;
  }

  lemma DropLastKeys(order: seq<UniqueKey>)
    requires NoDup(order) && order != []
    ensures NoDup(order[..|order| - 1])
    ensures forall x :: x in order[..|order| - 1] <==> x in order && x != order[|order| - 1]
  {
    forall x | x in order && x != order[|order| - 1] ensures x in order[..|order| - 1] {
      var i := Position(order, x);
      assert order[..|order| - 1][i] == x;
    }
  }

  /** Over every run from an empty table: the list holds each key of the map once, the table
      never outgrows its capacity, and the list is strictly ordered by the last reservation or
      retrieval of its keys. */
  lemma {:induction false} RunKeepsCmt(capacity: nat, ops: seq<CmtOp>)
    requires RunCmt(EmptyCmt(capacity), ops).Ran?
    ensures var r := RunCmt(EmptyCmt(capacity), ops);
            CmtInv(r.table) && ByRecency(r.table.order, r.touches) && r.table.capacity == capacity
  {
    if ops != [] {
      RunKeepsCmt(capacity, ops[..|ops| - 1]);
      var before := RunCmt(EmptyCmt(capacity), ops[..|ops| - 1]);
      hide CmtInv, ByRecency, Apply;
      ApplyKeeps(before.table, ops[|ops| - 1], before.touches);
    }
  }

  /** As written, with Insert demanding what only Insert establishes, no run from an empty table
      ever holds a usable entry: every lookup, update and insertion aborts. */
  lemma {:induction false} AsWrittenNothingIsUsable(capacity: nat, ops: seq<CmtOp>, k: UniqueKey)
    requires RunCmt(EmptyCmt(capacity), ops).Ran?
    requires forall i :: 0 <= i < |ops| ==> !ops[i].OpFill?
    ensures !UsableKey(RunCmt(EmptyCmt(capacity), ops).table, k)
  {
    hide KeyFor;
    if ops != [] {
      var op := ops[|ops| - 1];
      AsWrittenNothingIsUsable(capacity, ops[..|ops| - 1], k);
      assert !op.OpFill?;
      match op
      case OpEvict =>
      case OpReserve(_, _) =>
      case OpRetrieve(s, l) => AsWrittenNothingIsUsable(capacity, ops[..|ops| - 1], KeyFor(s, l));
      case OpUpdate(s, l, _, _) => AsWrittenNothingIsUsable(capacity, ops[..|ops| - 1], KeyFor(s, l));
      case OpInsert(s, l, _, _) => AsWrittenNothingIsUsable(capacity, ops[..|ops| - 1], KeyFor(s, l));
      case OpMakeClean(s, l) => AsWrittenNothingIsUsable(capacity, ops[..|ops| - 1], KeyFor(s, l));
    }
  }

  // ----- what eviction returns -----

  predicate InRange(stream: bv64, lpa: bv64) {
    stream < 0x100 && lpa < 0x100_0000_0000_0000
  }

  ghost predicate OpInRange(op: CmtOp) {
    op.OpEvict? || InRange(op.stream, op.lpa)
  }

  /** Every entry still carries the stream its key was reserved with. */
  ghost predicate Remembers(t: Cmt, reserved: map<UniqueKey, Reserved>) {
    forall k :: k in t.entries ==>
      && k in reserved && InRange(reserved[k].stream, reserved[k].lpa)
      && k == KeyFor(reserved[k].stream, reserved[k].lpa) && t.entries[k].stream == reserved[k].stream
  }

  lemma {:induction false} RunRemembers(capacity: nat, ops: seq<CmtOp>)
    requires RunCmt(EmptyCmt(capacity), ops).Ran?
    requires forall i :: 0 <= i < |ops| ==> OpInRange(ops[i])
    ensures var r := RunCmt(EmptyCmt(capacity), ops); Remembers(r.table, r.reserved)
  {
    if ops != [] {
      RunRemembers(capacity, ops[..|ops| - 1]);
      var before := RunCmt(EmptyCmt(capacity), ops[..|ops| - 1]);
      RemembersNext(before.table, before.reserved, ops[|ops| - 1]);
    }
  }

  lemma RemembersNext(t: Cmt, reserved: map<UniqueKey, Reserved>, op: CmtOp)
    requires Remembers(t, reserved) && OpInRange(op) && Apply(t, op).CmtOk?
    ensures Remembers(Apply(t, op).table,
                      if op.OpReserve? then reserved[KeyFor(op.stream, op.lpa) := Reserved(op.stream, op.lpa)]
                      else reserved)
  {
    hide KeyFor, InRange, Remembers;
    match op
    case OpEvict => ForgetOne(t, reserved, t.order[|t.order| - 1]);
    case OpReserve(s, l) => RememberNew(t, reserved, s, l);
    case OpRetrieve(s, l) => SameEntries(t, Apply(t, op).table, reserved);
    case OpUpdate(s, l, p, b) =>
      RememberUpdated(t, reserved, s, l, t.entries[KeyFor(s, l)].(ppa := p, bitmap := b, dirty := true, stream := s));
    case OpInsert(s, l, p, b) => RememberUpdated(t, reserved, s, l, CmtEntry(p, b, false, Usable, s));
    case OpFill(s, l, p, b) => RememberUpdated(t, reserved, s, l, CmtEntry(p, b, false, Usable, s));
    case OpMakeClean(s, l) => RememberClean(t, reserved, KeyFor(s, l));
  }

  lemma SameEntries(t: Cmt, t': Cmt, reserved: map<UniqueKey, Reserved>)
    requires Remembers(t, reserved) && t'.entries == t.entries
    ensures Remembers(t', reserved)
  {
  }

  lemma ForgetOne(t: Cmt, reserved: map<UniqueKey, Reserved>, k: UniqueKey)
    requires Remembers(t, reserved) && t.order != []
    ensures Remembers(t.(entries := t.entries - {k}, order := t.order[..|t.order| - 1]), reserved)
  {
    hide KeyFor, InRange;
  }

  lemma RememberNew(t: Cmt, reserved: map<UniqueKey, Reserved>, s: bv64, l: bv64)
    requires Remembers(t, reserved) && InRange(s, l)
    ensures var k := KeyFor(s, l);
            Remembers(t.(entries := t.entries[k := CmtEntry(0, 0, false, Waiting, s)], order := [k] + t.order),
                      reserved[k := Reserved(s, l)])
  {
    hide KeyFor, InRange;
  }

  lemma RememberUpdated(t: Cmt, reserved: map<UniqueKey, Reserved>, s: bv64, l: bv64, e: CmtEntry)
    requires Remembers(t, reserved) && InRange(s, l) && KeyFor(s, l) in t.entries && e.stream == s
    ensures Remembers(t.(entries := t.entries[KeyFor(s, l) := e]), reserved)
  {
    hide KeyFor, InRange;
    var k := KeyFor(s, l);
    SameOwner(s, l, reserved[k].stream, reserved[k].lpa);
  }

  lemma RememberClean(t: Cmt, reserved: map<UniqueKey, Reserved>, k: UniqueKey)
    requires Remembers(t, reserved) && k in t.entries
    ensures Remembers(t.(entries := t.entries[k := t.entries[k].(dirty := false)]), reserved)
  {
    hide KeyFor, InRange;
  }

  lemma SameOwner(s: bv64, l: bv64, s': bv64, l': bv64)
    requires InRange(s, l) && InRange(s', l') && KeyFor(s, l) == KeyFor(s', l')
    ensures s == s' && l == l'
  {
    KeysAreUnique(s, l, s', l');
    hide ToKey;
  }

  /** `k` is the key touched longest ago. */
  ghost predicate Oldest(t: Cmt, touches: seq<UniqueKey>, k: UniqueKey) {
    && k in t.entries
    && forall x :: x in t.entries && x != k ==> LastTouch(touches, x) > LastTouch(touches, k)
  }

  lemma LastIsOldest(t: Cmt, touches: seq<UniqueKey>)
    requires CmtInv(t) && ByRecency(t.order, touches) && t.entries.Keys != {}
    ensures t.order != [] && Oldest(t, touches, t.order[|t.order| - 1])
  {
    hide LastTouch;
    var some :| some in t.entries.Keys;
    assert some in t.order;
    var k := t.order[|t.order| - 1];
    assert k in t.order;
    forall x | x in t.entries && x != k ensures LastTouch(touches, x) > LastTouch(touches, k) {
      assert x in t.order;
      assert Position(t.order, x) < |t.order| - 1;
    }
  }

  /** Eviction succeeds on every table that is not empty. It removes the key whose last
      reservation or retrieval is longest ago, and nothing else, and the logical page computed
      from that key is the one it was reserved for. */
  lemma EvictReturnsOldest(capacity: nat, ops: seq<CmtOp>) returns (k: UniqueKey)
    requires RunCmt(EmptyCmt(capacity), ops).Ran?
    requires forall i :: 0 <= i < |ops| ==> OpInRange(ops[i])
    requires RunCmt(EmptyCmt(capacity), ops).table.entries.Keys != {}
    ensures var r := RunCmt(EmptyCmt(capacity), ops);
            && Oldest(r.table, r.touches, k)
            && Apply(r.table, OpEvict).CmtOk?
            && Apply(r.table, OpEvict).table.entries == r.table.entries - {k}
            && k in r.reserved && LpaOf(r.table.entries[k].stream, k) == r.reserved[k].lpa
  {
    hide KeyFor, LpaOf, RunCmt, InRange, LastTouch, CmtInv, ByRecency, Remembers;
    RunKeepsCmt(capacity, ops);
    RunRemembers(capacity, ops);
    var r := RunCmt(EmptyCmt(capacity), ops);
    LastIsOldest(r.table, r.touches);
    k := r.table.order[|r.table.order| - 1];
    RememberedLpa(r.table, r.reserved, k);
  }

  lemma RememberedLpa(t: Cmt, reserved: map<UniqueKey, Reserved>, k: UniqueKey)
    requires Remembers(t, reserved) && k in t.entries
    ensures k in reserved && LpaOf(t.entries[k].stream, k) == reserved[k].lpa
  {
    hide KeyFor, LpaOf, InRange;
    Unpacked(reserved[k].stream, reserved[k].lpa);
  }

  lemma Unpacked(s: bv64, l: bv64)
    requires InRange(s, l)
    ensures LpaOf(s, KeyFor(s, l)) == l
  {
    hide ToKey, FromKey;
    UnpackPackInRange(s, l);
  }

  // ----- the table itself -----

  type CmtSlot = Held<CmtEntry>

  /** An operation on table value `t` ended with `fault` in value `t'`. */
  ghost predicate Ended(t: Cmt, o: CmtResult, fault: Option<CmtFault>, t': Cmt) {
    match o
    case CmtOk(t1) => fault == None && t' == t1
    case CmtFailed(f) => fault == Some(f) && t' == t
  }

  class CachedMappingTable {
    var addressMap: map<UniqueKey, CmtSlot>
    var lruList: seq<Node<UniqueKey>>
    var nextHandle: nat    // identities for list nodes
    const capacity: nat

    ghost predicate Valid()
      reads this
    {
      Linked(lruList, Positions(addressMap), nextHandle) && |addressMap| <= capacity
    }

    function Value(): Cmt
      reads this
    {
      Cmt(Entries(addressMap), KeysOf(lruList), capacity)
    }

    /** A valid table has a well-formed value. */
    lemma ValueInv()
      requires Valid()
      ensures CmtInv(Value())
    {
      SameSize(addressMap);
      KeysAreThePositions(lruList, Positions(addressMap), nextHandle);
      hide KeysOf;
    }

    constructor (capacity: nat)
      ensures Valid() && Value() == EmptyCmt(capacity)
    {
      this.capacity := capacity;
      addressMap, lruList, nextHandle := map[], [], 0;
    }

    predicate Usable(k: UniqueKey)
      reads this
      ensures Usable(k) <==> UsableKey(Value(), k)
    {
      k in addressMap && addressMap[k].entry.status == Status.Usable
    }

    method Exists(stream: bv64, lpa: bv64) returns (found: bool)
      requires Valid()
      ensures found <==> UsableKey(Value(), KeyFor(stream, lpa))
    {
      found := Usable(KeyFor(stream, lpa));
    }

    method RetrievePPA(stream: bv64, lpa: bv64) returns (fault: Option<CmtFault>, ppa: nat)
      requires Valid()
      modifies this
      ensures Valid()
      ensures var k := KeyFor(stream, lpa);
              && Ended(old(Value()), Retrieve(old(Value()), k), fault, Value())
              && (fault == None ==> ppa == Value().entries[k].ppa)
    {
      hide KeyFor, Linked, Splice, Touch;
      var k := KeyFor(stream, lpa);
      if !Usable(k) {
        return Some(NotUsable), 0;
      }
      LinkedSplice(lruList, Positions(addressMap), nextHandle, k);
      if lruList[0].key != k {
        lruList := Splice(lruList, addressMap[k].pos);
      }
      return None, addressMap[k].entry.ppa;
    }

    /** Overwrite the entry of a key that is present; its list node stays where it is. */
    method SetEntry(k: UniqueKey, entry: CmtEntry)
      requires Valid() && k in addressMap
      modifies this`addressMap
      ensures Valid() && Value() == old(Value()).(entries := old(Value()).entries[k := entry])
    {
      hide Linked;
      var x := addressMap[k].(entry := entry);
      StoreSlot(addressMap, k, x);
      addressMap := addressMap[k := x];
    }

    method Update(stream: bv64, lpa: bv64, ppa: nat, bitmap: bv64) returns (fault: Option<CmtFault>)
      requires Valid()
      modifies this`addressMap
      ensures Valid()
      ensures Ended(old(Value()), UpdateEntry(old(Value()), KeyFor(stream, lpa), stream, ppa, bitmap), fault, Value())
      ensures fault == None ==>
                var k := KeyFor(stream, lpa);
                k in Value().entries && Value().entries[k] == CmtEntry(ppa, bitmap, true, Status.Usable, stream)
    {
      hide KeyFor, CachedMappingTable.Valid;
      var k := KeyFor(stream, lpa);
      if !Usable(k) {
        return Some(NotUsable);
      }
      SetEntry(k, addressMap[k].entry.(ppa := ppa, bitmap := bitmap, dirty := true, stream := stream));
      return None;
    }

    /** As the code has it: only an entry that is usable already can be inserted. */
    method Insert(stream: bv64, lpa: bv64, ppa: nat, bitmap: bv64) returns (fault: Option<CmtFault>)
      requires Valid()
      modifies this`addressMap
      ensures Valid()
      ensures Ended(old(Value()), InsertEntry(old(Value()), KeyFor(stream, lpa), stream, ppa, bitmap), fault, Value())
    {
      hide KeyFor, CachedMappingTable.Valid;
      var k := KeyFor(stream, lpa);
      if !Usable(k) {
        return Some(NotUsable);
      }
      SetEntry(k, CmtEntry(ppa, bitmap, false, Status.Usable, stream));
      return None;
    }

    /** As intended: a reserved entry becomes usable. */
    method InsertRepaired(stream: bv64, lpa: bv64, ppa: nat, bitmap: bv64) returns (fault: Option<CmtFault>)
      requires Valid()
      modifies this`addressMap
      ensures Valid()
      ensures Ended(old(Value()), Fill(old(Value()), KeyFor(stream, lpa), stream, ppa, bitmap), fault, Value())
      ensures fault == None ==>
                var k := KeyFor(stream, lpa);
                k in Value().entries && Value().entries[k] == CmtEntry(ppa, bitmap, false, Status.Usable, stream)
    {
      hide KeyFor, CachedMappingTable.Valid;
      var k := KeyFor(stream, lpa);
      if !(k in addressMap && addressMap[k].entry.status == Waiting) {
        return Some(NotUsable);
      }
      SetEntry(k, CmtEntry(ppa, bitmap, false, Status.Usable, stream));
      return None;
    }

    method GetBitMap(stream: bv64, lpa: bv64) returns (fault: Option<CmtFault>, bitmap: bv64)
      requires Valid()
      ensures var k := KeyFor(stream, lpa);
              if UsableKey(Value(), k) then fault == None && bitmap == Value().entries[k].bitmap
              else fault == Some(NotUsable)
    {
      hide KeyFor, CachedMappingTable.Valid;
      var k := KeyFor(stream, lpa);
      if !Usable(k) {
        return Some(NotUsable), 0;
      }
      return None, addressMap[k].entry.bitmap;
    }

    method IsSlotReservedForLpnAndWaiting(stream: bv64, lpa: bv64) returns (waiting: bool)
      ensures var k := KeyFor(stream, lpa); waiting <==> k in Value().entries && Value().entries[k].status == Waiting
    {
      hide KeyFor;
      var k := KeyFor(stream, lpa);
      waiting := k in addressMap && addressMap[k].entry.status == Waiting;
    }

    /** There is a free slot exactly when reserving an absent key succeeds. */
    method CheckFreeSlotAvailability() returns (available: bool)
      requires Valid()
      ensures forall k, s :: k !in Value().entries ==> (available <==> Reserve(Value(), k, s).CmtOk?)
    {
      SameSize(addressMap);
      available := |addressMap| < capacity;
    }

    method ReserveSlotForLpn(stream: bv64, lpa: bv64) returns (fault: Option<CmtFault>)
      requires Valid()
      modifies this
      ensures Valid()
      ensures Ended(old(Value()), Reserve(old(Value()), KeyFor(stream, lpa), stream), fault, Value())
      ensures fault == None ==>
                var k := KeyFor(stream, lpa);
                k in Value().entries && Value().entries[k].status == Waiting && Value().entries[k].stream == stream
    {
      hide KeyFor, Linked, Touch;
      SameSize(addressMap);
      var k := KeyFor(stream, lpa);
      if k in addressMap {
        return Some(Duplicate);
      }
      if |addressMap| >= capacity {
        return Some(Overfull);
      }
      var x := Held(CmtEntry(0, 0, false, Waiting, stream), nextHandle);
      LinkedPush(lruList, Positions(addressMap), nextHandle, k);
      StoreSlot(addressMap, k, x);
      lruList := [Node(nextHandle, k)] + lruList;
      addressMap := addressMap[k := x];
      nextHandle := nextHandle + 1;
      return None;
    }

    method EvictOne() returns (fault: Option<CmtFault>, lpa: bv64, slot: CmtEntry)
      requires Valid()
      modifies this
      ensures Valid()
      ensures old(Value()).entries.Keys != {} ==> old(Value()).order != []
      ensures Ended(old(Value()), Evict(old(Value())), fault, Value())
      ensures fault == None ==>
                var k := old(Value()).order[|old(Value()).order| - 1];
                k in old(Value()).entries && slot == old(Value()).entries[k] && lpa == LpaOf(slot.stream, k)
    {
      hide KeyFor, LpaOf, CachedMappingTable.Valid;
      ghost var t := Value();
      SameSize(addressMap);
      LastIsPresent();
      slot := CmtEntry(0, 0, false, Status.Free, 0);
      if |addressMap| == 0 {
        return Some(NothingToEvict), 0, slot;
      }
      var last := lruList[|lruList| - 1].key;
      slot := addressMap[last].entry;
      lpa := LpaOf(slot.stream, last);
      PopLast();
      fault := None;
    }

    /** The list is as long as the map, and its last key is present. */
    lemma LastIsPresent()
      requires Valid()
      ensures |lruList| == |addressMap|
      ensures addressMap != map[] ==> lruList != []
      ensures lruList != [] ==> lruList[|lruList| - 1].key in addressMap
    {
      hide KeysOf, Entries;
      SameSize(addressMap);
      KeysAreThePositions(lruList, Positions(addressMap), nextHandle);
      if lruList != [] {
        var last := KeysOf(lruList)[|lruList| - 1];
        assert last in KeysOf(lruList) && last in Positions(addressMap);
      }
      assert addressMap != map[] ==> |addressMap| > 0 by {
        if addressMap != map[] {
          var k :| k in addressMap;
        }
      }
    }

    /** Drop the last key from both structures. */
    method PopLast()
      requires Valid() && lruList != []
      modifies this`addressMap, this`lruList
      ensures Valid()
      ensures var t, n := old(Value()), |old(Value()).order| - 1;
              Value() == t.(entries := t.entries - {t.order[n]}, order := t.order[..n])
    {
      hide Linked, KeysOf, Without;
      LinkedPop(lruList, Positions(addressMap), nextHandle);
      SmallerMap(addressMap, lruList[|lruList| - 1].key);
      DropSlot(addressMap, lruList[|lruList| - 1].key);
      addressMap := addressMap - {lruList[|lruList| - 1].key};
      lruList := lruList[..|lruList| - 1];
    }

    method IsDirty(stream: bv64, lpa: bv64) returns (fault: Option<CmtFault>, dirty: bool)
      requires Valid()
      ensures var k := KeyFor(stream, lpa);
              if UsableKey(Value(), k) then fault == None && dirty == Value().entries[k].dirty
              else fault == Some(NotUsable)
    {
      hide KeyFor, CachedMappingTable.Valid;
      var k := KeyFor(stream, lpa);
      if !Usable(k) {
        return Some(NotUsable), false;
      }
      return None, addressMap[k].entry.dirty;
    }

    method MakeClean(stream: bv64, lpa: bv64) returns (fault: Option<CmtFault>)
      requires Valid()
      modifies this`addressMap
      ensures Valid()
      ensures Ended(old(Value()), CleanEntry(old(Value()), KeyFor(stream, lpa)), fault, Value())
      ensures fault == None ==>
                var k := KeyFor(stream, lpa);
                k in old(Value()).entries && k in Value().entries
                && Value().entries[k] == old(Value()).entries[k].(dirty := false)
    {
      hide KeyFor, CachedMappingTable.Valid;
      var k := KeyFor(stream, lpa);
      if !Usable(k) {
        return Some(NotUsable);
      }
      SetEntry(k, addressMap[k].entry.(dirty := false));
      return None;
    }
  }
}
