/** The data cache: pages by packed key and a recency list. `Cache` is its value, the class its
    implementation. */
module DataCaching {
  import opened FlashTypes
  import opened Bits
  import opened Lru

  datatype CacheStatus = Empty | Clean | DirtyNoFlush | DirtyFlush

  type Page = seq<bv8>

  datatype PageSlot = PageSlot(bitmap: bv64, lpa: bv64, timestamp: nat, data: Page, status: CacheStatus)

  /** The default slot, returned when there is nothing to return. */
  const NO_SLOT: PageSlot := PageSlot(0, 0, 0, [], Empty)

  /** Keys, most recently used first, and a page for each. */
  datatype Cache = Cache(slots: map<UniqueKey, PageSlot>, order: seq<UniqueKey>, capacity: nat)

  /** What an eviction leaves and returns. */
  datatype Evicted = Evicted(cache: Cache, page: PageSlot)

  function EmptyCache(capacity: nat): Cache { Cache(map[], [], capacity) }

  /** A cache holds one page even when its capacity is 0. */
  function Room(capacity: nat): nat { if capacity == 0 then 1 else capacity }

  ghost predicate CacheInv(t: Cache) {
    && NoDup(t.order)
    && (forall k :: k in t.order <==> k in t.slots)
    && |t.order| == |t.slots| <= Room(t.capacity)
  }

  predicate Full(t: Cache) { |t.slots| >= t.capacity }

  predicate Dirty(t: Cache, k: UniqueKey) { k in t.slots && t.slots[k].status == DirtyNoFlush }

  /** GetSlot. */
  function Get(t: Cache, k: UniqueKey): Cache {
    if k in t.slots then t.(order := Touch(t.order, k)) else t
  }

  function Drop(t: Cache, k: UniqueKey): Cache {
    t.(slots := t.slots - {k}, order := Without(t.order, k))
  }

  /** The least recently used page. */
  function Last(t: Cache): UniqueKey
    requires t.order != []
  {
    t.order[|t.order| - 1]
  }

  /** EvictOnePageLRU. */
  function EvictLru(t: Cache): Evicted {
    if t.order == [] || Last(t) !in t.slots then Evicted(t, NO_SLOT)
    else Evicted(Drop(t, Last(t)), t.slots[Last(t)])
  }

  /** The least recently used dirty key among the first n. */
  function LastDirty(t: Cache, n: nat): (r: Option<nat>)
    requires n <= |t.order|
    ensures match r
            case Some(i) => i < n && Dirty(t, t.order[i]) && forall j :: i < j < n ==> !Dirty(t, t.order[j])
            case None => forall j :: 0 <= j < n ==> !Dirty(t, t.order[j])
  {
    if n == 0 then None
    else if Dirty(t, t.order[n - 1]) then Some(n - 1)
    else LastDirty(t, n - 1)
  }

  /** EvictOneDirtyPage: the least recently used dirty page, or, marked empty, the least
      recently used page when none is dirty. */
  function EvictDirty(t: Cache): (e: Evicted)
    ensures e.cache.capacity == t.capacity
  {
    match LastDirty(t, |t.order|)
    case Some(i) => Evicted(Drop(t, t.order[i]), t.slots[t.order[i]])
    case None => var e := EvictLru(t); Evicted(e.cache, e.page.(status := Empty))
  }

  lemma NothingToEvict(t: Cache)
    requires t.order == []
    ensures EvictDirty(t) == Evicted(t, NO_SLOT)
  {
  }

  lemma LastDirtyIsEvicted(t: Cache, i: nat)
    requires i < |t.order| && Dirty(t, t.order[i]) && forall j :: i < j < |t.order| ==> !Dirty(t, t.order[j])
    ensures EvictDirty(t) == Evicted(Drop(t, t.order[i]), t.slots[t.order[i]])
  {
    hide Drop;
    var r := LastDirty(t, |t.order|);
    assert r == Some(i);
  }

  lemma LastIsEvicted(t: Cache)
    requires t.order != [] && Last(t) in t.slots && forall j :: 0 <= j < |t.order| ==> !Dirty(t, t.order[j])
    ensures EvictDirty(t) == Evicted(Drop(t, Last(t)), t.slots[Last(t)].(status := Empty))
  {
    hide Drop;
    assert LastDirty(t, |t.order|) == None;
  }

  /** InsertReadData and InsertWriteData, which differ in the status of the new page. */
  function InsertPage(t: Cache, k: UniqueKey, page: PageSlot): (r: Cache)
    ensures r.capacity == t.capacity
  {
    if k in t.slots then t
    else
      var t1 := if Full(t) then EvictLru(t).cache else t;
      t1.(slots := t1.slots[k := page], order := [k] + t1.order)
  }

  /** UpdateData. */
  function UpdatePage(t: Cache, k: UniqueKey, page: PageSlot): Cache {
    if k in t.slots then t.(slots := t.slots[k := page], order := Touch(t.order, k)) else t
  }

  /** ChangeSlotStatusToWriteBack. */
  function WriteBack(t: Cache, k: UniqueKey): Cache {
    if k in t.slots then t.(slots := t.slots[k := t.slots[k].(status := DirtyFlush)]) else t
  }

  /** RemoveSlot as intended. */
  function Remove(t: Cache, k: UniqueKey): Cache {
    if k in t.slots then Drop(t, k) else t
  }

  // ----- the invariant -----

  lemma DropKeeps(t: Cache, k: UniqueKey)
    requires CacheInv(t) && k in t.slots
    ensures CacheInv(Drop(t, k)) && |Drop(t, k).slots| == |t.slots| - 1
  {
    hide Without;
    forall x ensures x in Without(t.order, k) <==> x in t.order && x != k { WithoutMembers(t.order, k, x); }
    WithoutMembers(t.order, k, k);
    WithoutNoDup(t.order, k);
    assert (t.slots - {k}).Keys == t.slots.Keys - {k};
  }

  lemma TouchKeeps(t: Cache, k: UniqueKey)
    requires CacheInv(t) && k in t.slots
    ensures CacheInv(t.(order := Touch(t.order, k)))
  {
    hide Without;
    forall x ensures x in Touch(t.order, k) <==> x in t.order || x == k { TouchMembers(t.order, k, x); }
    TouchMembers(t.order, k, k);
    WithoutMembers(t.order, k, k);
  }

  lemma PushKeeps(t: Cache, k: UniqueKey, page: PageSlot)
    requires CacheInv(t) && k !in t.slots && |t.slots| < Room(t.capacity)
    ensures CacheInv(t.(slots := t.slots[k := page], order := [k] + t.order))
  {
    assert k !in t.order;
    assert t.slots[k := page].Keys == t.slots.Keys + {k};
  }

  lemma StoreKeeps(t: Cache, k: UniqueKey, page: PageSlot)
    requires CacheInv(t) && k in t.slots
    ensures CacheInv(t.(slots := t.slots[k := page]))
  {
    assert t.slots[k := page].Keys == t.slots.Keys;
    assert |t.slots[k := page]| == |t.slots[k := page].Keys|;
  }

  lemma EvictLruKeeps(t: Cache)
    requires CacheInv(t)
    ensures CacheInv(EvictLru(t).cache) && forall k :: k in EvictLru(t).cache.slots ==> k in t.slots
    ensures t.slots != map[] ==> t.order != [] && Last(t) in t.slots && |EvictLru(t).cache.slots| == |t.slots| - 1
  {
    hide Without;
    if t.slots != map[] {
      assert |t.slots| > 0 by { var k :| k in t.slots; }
      assert Last(t) in t.order;
      DropKeeps(t, Last(t));
    }
  }

  lemma EvictDirtyKeeps(t: Cache)
    requires CacheInv(t)
    ensures CacheInv(EvictDirty(t).cache)
    ensures t.slots != map[] ==> |EvictDirty(t).cache.slots| == |t.slots| - 1
  {
    EvictLruKeeps(t);
    hide Drop, CacheInv, EvictLru;
    match LastDirty(t, |t.order|)
    case Some(i) => DropKeeps(t, t.order[i]);
    case None =>
  }

  lemma InsertKeeps(t: Cache, k: UniqueKey, page: PageSlot)
    requires CacheInv(t)
    ensures CacheInv(InsertPage(t, k, page))
  {
    if k !in t.slots {
      EvictLruKeeps(t);
      hide Without;
      PushKeeps(if Full(t) then EvictLru(t).cache else t, k, page);
    }
  }

  lemma UpdateKeeps(t: Cache, k: UniqueKey, page: PageSlot)
    requires CacheInv(t)
    ensures CacheInv(UpdatePage(t, k, page))
  {
    if k in t.slots {
      hide CacheInv, Touch;
      TouchKeeps(t, k);
      StoreKeeps(t.(order := Touch(t.order, k)), k, page);
    }
  }

  // ----- what each operation does to the pages and the order -----

  /** Every key but `k` has the same page in both caches, or none in both. */
  ghost predicate OthersKept(t: Cache, k: UniqueKey, t': Cache) {
    forall x :: x != k ==> (x in t'.slots <==> x in t.slots) && (x in t.slots ==> t'.slots[x] == t.slots[x])
  }

  /** `rest` is the list without `k`, everything else in its order. */
  ghost predicate Removed(order: seq<UniqueKey>, k: UniqueKey, rest: seq<UniqueKey>) {
    exists i :: 0 <= i < |order| && order[i] == k && rest == order[..i] + order[i + 1..]
  }

  /** The page of `k` is `page`, and it has moved to the front; nothing else has changed. */
  ghost predicate Fronted(t: Cache, k: UniqueKey, page: PageSlot, t': Cache) {
    && t'.capacity == t.capacity && OthersKept(t, k, t')
    && k in t'.slots && t'.slots[k] == page
    && t'.order != [] && t'.order[0] == k && Removed(t.order, k, t'.order[1..])
  }

  /** The new key holds exactly the given page and comes first; only the key that was last has gone,
      and that only from a full cache; every other page stays as it was. A present key is left
      alone. */
  ghost predicate Inserted(t: Cache, k: UniqueKey, page: PageSlot, t': Cache) {
    if k in t.slots then t' == t
    else
      && t'.capacity == t.capacity && k in t'.slots && t'.slots[k] == page
      && (forall x :: x in t'.slots && x != k ==> x in t.slots && t'.slots[x] == t.slots[x])
      && (forall x :: x in t.slots ==>
            (x !in t'.slots <==> |t.slots| >= t.capacity && t.order != [] && x == t.order[|t.order| - 1]))
      && t'.order == [k] + if |t.slots| >= t.capacity && t.order != [] then t.order[..|t.order| - 1] else t.order
  }

  lemma InsertsExactly(t: Cache, k: UniqueKey, page: PageSlot)
    requires CacheInv(t)
    ensures Inserted(t, k, page, InsertPage(t, k, page))
  {
    if k !in t.slots && t.order != [] {
      assert Last(t) in t.order;
      WithoutLast(t.order);
    }
    hide Without, NoDup;
  }

  lemma TouchMoves(order: seq<UniqueKey>, k: UniqueKey)
    requires k in order
    ensures var r := Touch(order, k); r != [] && r[0] == k && Removed(order, k, r[1..])
  {
    hide Position;
    var i := Position(order, k);
    var rest := order[..i] + order[i + 1..];
    assert Touch(order, k) == [k] + rest;
    hide Touch;
    assert ([k] + rest)[1..] == rest;
  }

  /** A lookup moves a present key to the front and changes no page; an absent key changes nothing. */
  lemma LooksUpExactly(t: Cache, k: UniqueKey)
    requires CacheInv(t)
    ensures if k in t.slots then Fronted(t, k, t.slots[k], Get(t, k)) else Get(t, k) == t
  {
    if k in t.slots { TouchMoves(t.order, k); }
    hide Touch, NoDup, Removed;
  }

  /** An update replaces the whole page of a present key and moves it to the front. */
  lemma UpdatesExactly(t: Cache, k: UniqueKey, page: PageSlot)
    requires CacheInv(t)
    ensures if k in t.slots then Fronted(t, k, page, UpdatePage(t, k, page)) else UpdatePage(t, k, page) == t
  {
    if k in t.slots { TouchMoves(t.order, k); }
    hide Touch, NoDup, Removed;
  }

  /** The key has gone from the pages and from the list; nothing else has changed. */
  ghost predicate Dropped(t: Cache, k: UniqueKey, t': Cache) {
    t'.capacity == t.capacity && OthersKept(t, k, t') && k !in t'.slots && Removed(t.order, k, t'.order)
  }

  lemma DropsExactly(t: Cache, k: UniqueKey)
    requires CacheInv(t) && k in t.slots
    ensures Dropped(t, k, Drop(t, k))
  {
    var i := Position(t.order, k);
    assert Without(t.order, k) == t.order[..i] + t.order[i + 1..];
    hide Position, NoDup;
  }

  /** Removal drops a present key. */
  lemma RemovesExactly(t: Cache, k: UniqueKey)
    requires CacheInv(t)
    ensures if k in t.slots then Dropped(t, k, Remove(t, k)) else Remove(t, k) == t
  {
    if k in t.slots { DropsExactly(t, k); }
    hide Without, NoDup, Dropped;
  }

  /** A page being written back is marked as flushed and otherwise stays as it is. */
  ghost predicate Flushed(t: Cache, k: UniqueKey, t': Cache) {
    && t'.capacity == t.capacity && t'.order == t.order && OthersKept(t, k, t')
    && k in t.slots && k in t'.slots
    && t'.slots[k] == PageSlot(t.slots[k].bitmap, t.slots[k].lpa, t.slots[k].timestamp, t.slots[k].data, DirtyFlush)
  }

  lemma FlushesExactly(t: Cache, k: UniqueKey)
    ensures if k in t.slots then Flushed(t, k, WriteBack(t, k)) else WriteBack(t, k) == t
  {
  }

  /** Eviction by recency takes the last key and returns its page unchanged, dirty or not; an empty
      cache returns the default slot. */
  lemma EvictsLastExactly(t: Cache)
    requires CacheInv(t)
    ensures var e := EvictLru(t);
            if t.slots == map[] then e == Evicted(t, PageSlot(0, 0, 0, [], Empty))
            else
              && t.order != [] && t.order[|t.order| - 1] in t.slots
              && e.page == t.slots[t.order[|t.order| - 1]] && Dropped(t, t.order[|t.order| - 1], e.cache)
  {
    EvictLruKeeps(t);
    if t.slots != map[] { DropsExactly(t, Last(t)); }
    hide Drop, Dropped, NoDup;
  }

  /** Eviction of dirty pages takes the last key whose page is dirty and returns that page; with none
      it takes the last key and returns its page marked empty. */
  lemma EvictsDirtyExactly(t: Cache) returns (i: int)
    requires CacheInv(t)
    ensures var e := EvictDirty(t);
            if t.slots == map[] then e == Evicted(t, PageSlot(0, 0, 0, [], Empty))
            else
              && 0 <= i < |t.order| && t.order[i] in t.slots && Dropped(t, t.order[i], e.cache)
              && (forall j :: i < j < |t.order| ==> t.order[j] in t.slots && t.slots[t.order[j]].status != DirtyNoFlush)
              && var page := t.slots[t.order[i]];
                 if page.status == DirtyNoFlush then e.page == page
                 else
                   && i == |t.order| - 1 && e.page == PageSlot(page.bitmap, page.lpa, page.timestamp, page.data, Empty)
                   && forall j :: 0 <= j < |t.order| ==> t.slots[t.order[j]].status != DirtyNoFlush
  {
    hide Drop, Dropped, CacheInv;
    OrderIsPresent(t);
    var r := LastDirty(t, |t.order|);
    i := if r.Some? then r.value else |t.order| - 1;
    if t.slots != map[] { DropsExactly(t, t.order[i]); }
  }

  /** The list holds keys that are present, and none only when the cache is empty. */
  lemma OrderIsPresent(t: Cache)
    requires CacheInv(t)
    ensures forall j :: 0 <= j < |t.order| ==> t.order[j] in t.slots
    ensures t.order == [] <==> t.slots == map[]
  {
    assert forall j :: 0 <= j < |t.order| ==> t.order[j] in t.order;
    hide NoDup;
  }

  // ----- stack inclusion -----

  /** One use of a page: looked up or updated when present, inserted otherwise. */
  datatype Access = Access(key: UniqueKey, page: PageSlot, update: bool)

  function Use(t: Cache, a: Access): Cache {
    if a.key !in t.slots then InsertPage(t, a.key, a.page)
    else if a.update then UpdatePage(t, a.key, a.page)
    else Get(t, a.key)
  }

  function UseAll(t: Cache, trace: seq<Access>): Cache {
    if trace == [] then t
    else Use(UseAll(t, trace[..|trace| - 1]), trace[|trace| - 1])
  }

  /** All keys of a trace, most recently used first. */
  function Stack(trace: seq<Access>): seq<UniqueKey> {
    if trace == [] then []
    else Touch(Stack(trace[..|trace| - 1]), trace[|trace| - 1].key)
  }

  function Take(s: seq<UniqueKey>, n: nat): seq<UniqueKey> {
    if |s| <= n then s else s[..n]
  }

  lemma {:induction false} StackNoDup(trace: seq<Access>)
    ensures NoDup(Stack(trace))
  {
    if trace != [] {
      StackNoDup(trace[..|trace| - 1]);
      hide Touch;
      TouchMembers(Stack(trace[..|trace| - 1]), trace[|trace| - 1].key, trace[|trace| - 1].key);
    }
  }

  /** Touching a key that is among the first n commutes with keeping the first n. */
  lemma TouchInside(s: seq<UniqueKey>, n: nat, k: UniqueKey)
    requires NoDup(s) && k in Take(s, n)
    ensures Touch(Take(s, n), k) == Take(Touch(s, k), n)
  {
    hide Position, NoDup;
    if |s| > n {
      PositionInPrefix(s, n, k);
      CutPrefix(s, n, Position(s, k), k);
    }
  }

  lemma {:induction false} PositionInPrefix(s: seq<UniqueKey>, n: nat, k: UniqueKey)
    requires n <= |s| && k in s[..n]
    ensures k in s && Position(s, k) == Position(s[..n], k) < n
  {
    hide Position;
    var i := Position(s[..n], k);
    assert s[i] == s[..n][i];
    assert forall j :: 0 <= j < i ==> s[j] == s[..n][j];
  }

  lemma CutPrefix(s: seq<UniqueKey>, n: nat, i: nat, k: UniqueKey)
    requires i < n < |s|
    ensures [k] + (s[..n][..i] + s[..n][i + 1..]) == ([k] + (s[..i] + s[i + 1..]))[..n]
  {
    assert s[..n][..i] == s[..i];
    assert s[..n][i + 1..] == s[i + 1..n] == s[i + 1..][..n - i - 1];
  }

  /** Touching any other key pushes out the n-th. */
  lemma TouchOutside(s: seq<UniqueKey>, n: nat, k: UniqueKey)
    requires NoDup(s) && n > 0 && k !in Take(s, n)
    ensures [k] + (if |s| >= n then Take(s, n)[..n - 1] else s) == Take(Touch(s, k), n)
  {
    if k in s {
      var i := Position(s, k);
      assert i >= n;
      hide Position;
    }
  }

  lemma WithoutLast(keys: seq<UniqueKey>)
    requires NoDup(keys) && keys != []
    ensures Without(keys, keys[|keys| - 1]) == keys[..|keys| - 1]
  {
    assert Position(keys, keys[|keys| - 1]) == |keys| - 1;
  }

  lemma UseKeeps(t: Cache, a: Access)
    requires CacheInv(t)
    ensures CacheInv(Use(t, a)) && Use(t, a).capacity == t.capacity
  {
    InsertKeeps(t, a.key, a.page);
    UpdateKeeps(t, a.key, a.page);
    if a.key in t.slots { TouchKeeps(t, a.key); }
  }

  lemma UseOrder(t: Cache, a: Access, s: seq<UniqueKey>)
    requires CacheInv(t) && NoDup(s) && t.order == Take(s, Room(t.capacity))
    ensures Use(t, a).order == Take(Touch(s, a.key), Room(t.capacity))
  {
    var n, k := Room(t.capacity), a.key;
    if k in t.slots {
      TouchInside(s, n, k);
    } else {
      TouchOutside(s, n, k);
      EvictLruKeeps(t);
      if t.order != [] { WithoutLast(t.order); }
    }
    hide Touch, Without;
  }

  /** After any trace the list of a cache is the start of the trace's recency stack. */
  lemma {:induction false} OrderIsStack(capacity: nat, trace: seq<Access>)
    ensures CacheInv(UseAll(EmptyCache(capacity), trace)) && UseAll(EmptyCache(capacity), trace).capacity == capacity
    ensures UseAll(EmptyCache(capacity), trace).order == Take(Stack(trace), Room(capacity))
  {
    if trace != [] {
      var before, a := trace[..|trace| - 1], trace[|trace| - 1];
      OrderIsStack(capacity, before);
      StackNoDup(before);
      hide CacheInv, Use, Touch, NoDup, Take;
      UseKeeps(UseAll(EmptyCache(capacity), before), a);
      UseOrder(UseAll(EmptyCache(capacity), before), a, Stack(before));
    }
  }

  /** Stack inclusion: whatever the trace, the list of the smaller cache is the first part of
      the list of the larger one, so a larger cache hits wherever a smaller one does. */
  lemma {:induction false} StackInclusion(c: nat, d: nat, trace: seq<Access>)
    requires 1 <= c <= d
    ensures var small, large := UseAll(EmptyCache(c), trace), UseAll(EmptyCache(d), trace);
            && small.order == Take(large.order, c)
            && forall k :: k in small.slots ==> k in large.slots
  {
    OrderIsStack(c, trace);
    OrderIsStack(d, trace);
    hide UseAll, Stack, NoDup;
    assert forall k :: k in Take(Stack(trace), c) ==> k in Take(Stack(trace), d);
  }

  // ----- write-back transparency -----

  /** The cache of one stream and the pages behind it. */
  datatype Host = Host(cache: Cache, backing: map<UniqueKey, Page>)

  function Stored(backing: map<UniqueKey, Page>, k: UniqueKey): Page {
    if k in backing then backing[k] else []
  }

  /** What the host sees: the cached page if there is one. */
  function Seen(h: Host, k: UniqueKey): Page {
    if k in h.cache.slots then h.cache.slots[k].data else Stored(h.backing, k)
  }

  /** Every page carries its own address, and only dirty pages differ from what is stored. */
  ghost predicate PageOk(h: Host, stream: bv64, k: UniqueKey) {
    k in h.cache.slots ==>
      && k == KeyFor(stream, h.cache.slots[k].lpa)
      && (!Dirty(h.cache, k) ==> h.cache.slots[k].data == Stored(h.backing, k))
  }

  ghost predicate HostOk(h: Host, stream: bv64) {
    CacheInv(h.cache) && forall k :: PageOk(h, stream, k)
  }

  /** EvictOneDirtyPage; a page that was returned dirty is written back. */
  function EvictAndWriteBack(h: Host, stream: bv64): Host {
    var e := EvictDirty(h.cache);
    Host(e.cache,
         if e.page.status == DirtyNoFlush then h.backing[KeyFor(stream, e.page.lpa) := e.page.data] else h.backing)
  }

  function MakeRoom(h: Host, stream: bv64): Host {
    if Full(h.cache) then EvictAndWriteBack(h, stream) else h
  }

  datatype HostOp =
    | HostRead(lpa: bv64, bitmap: bv64, time: nat)
    | HostWrite(lpa: bv64, data: Page, bitmap: bv64, time: nat)
    | HostFlush(lpa: bv64)
    | HostRemove(lpa: bv64)
    | HostEvict

  /** The host removes no page that still has to be written back. */
  predicate Allowed(h: Host, stream: bv64, op: HostOp) {
    op.HostRemove? ==> !Dirty(h.cache, KeyFor(stream, op.lpa))
  }

  function Load(h: Host, stream: bv64, page: PageSlot): Host {
    var h1 := MakeRoom(h, stream);
    h1.(cache := InsertPage(h1.cache, KeyFor(stream, page.lpa), page))
  }

  function Exec(h: Host, stream: bv64, op: HostOp): Host {
    match op
    case HostRead(l, b, t) =>
      var k := KeyFor(stream, l);
      if k in h.cache.slots then h.(cache := Get(h.cache, k))
      else Load(h, stream, PageSlot(b, l, t, Stored(h.backing, k), Clean))
    case HostWrite(l, d, b, t) =>
      var k := KeyFor(stream, l);
      if k in h.cache.slots then h.(cache := UpdatePage(h.cache, k, PageSlot(b, l, t, d, DirtyNoFlush)))
      else Load(h, stream, PageSlot(b, l, t, d, DirtyNoFlush))
    case HostFlush(l) =>
      var k := KeyFor(stream, l);
      if k in h.cache.slots then Host(WriteBack(h.cache, k), h.backing[k := h.cache.slots[k].data]) else h
    case HostRemove(l) => h.(cache := Remove(h.cache, KeyFor(stream, l)))
    case HostEvict => EvictAndWriteBack(h, stream)
  }

  /** The page a read returns. */
  function Answer(h: Host, stream: bv64, op: HostOp): seq<Page> {
    if op.HostRead? then [Seen(Exec(h, stream, op), KeyFor(stream, op.lpa))] else []
  }

  /** The same operations on a plain map. */
  function PlainExec(m: map<UniqueKey, Page>, stream: bv64, op: HostOp): map<UniqueKey, Page> {
    if op.HostWrite? then m[KeyFor(stream, op.lpa) := op.data] else m
  }

  function PlainAnswer(m: map<UniqueKey, Page>, stream: bv64, op: HostOp): seq<Page> {
    if op.HostRead? then [Stored(m, KeyFor(stream, op.lpa))] else []
  }

  ghost predicate SameView(h: Host, m: map<UniqueKey, Page>) {
    forall k :: Seen(h, k) == Stored(m, k)
  }

  /** Dropping a page that is stored or was just written back changes nothing the host sees. */
  lemma DropIsInvisible(h: Host, stream: bv64, k: UniqueKey, backing: map<UniqueKey, Page>)
    requires HostOk(h, stream) && k in h.cache.slots
    requires backing == if Dirty(h.cache, k) then h.backing[k := h.cache.slots[k].data] else h.backing
    ensures var h' := Host(Drop(h.cache, k), backing);
            HostOk(h', stream) && forall x :: Seen(h', x) == Seen(h, x)
  {
    DropKeeps(h.cache, k);
    var h' := Host(Drop(h.cache, k), backing);
    assert PageOk(h, stream, k);
    forall x ensures PageOk(h', stream, x) && Seen(h', x) == Seen(h, x) {
      assert PageOk(h, stream, x);
    }
    hide Without, CacheInv, KeyFor;
  }

  lemma EvictionIsInvisible(h: Host, stream: bv64)
    requires HostOk(h, stream)
    ensures var h' := EvictAndWriteBack(h, stream);
            HostOk(h', stream) && forall x :: Seen(h', x) == Seen(h, x)
  {
    hide KeyFor, Seen, Drop, CacheInv;
    var t := h.cache;
    EvictLruKeeps(t);
    match LastDirty(t, |t.order|)
    case Some(i) =>
      var k := t.order[i];
      assert PageOk(h, stream, k);
      DropIsInvisible(h, stream, k, h.backing[k := t.slots[k].data]);
    case None =>
      if t.order != [] && Last(t) in t.slots {
        DropIsInvisible(h, stream, Last(t), h.backing);
      }
  }

  lemma MakeRoomMakesRoom(h: Host, stream: bv64)
    requires HostOk(h, stream)
    ensures var h' := MakeRoom(h, stream);
            && HostOk(h', stream) && (forall x :: Seen(h', x) == Seen(h, x))
            && |h'.cache.slots| < Room(h'.cache.capacity)
            && forall k :: k in h'.cache.slots ==> k in h.cache.slots
  {
    hide KeyFor, Seen, CacheInv;
    if Full(h.cache) {
      EvictionIsInvisible(h, stream);
      RoomAfterEviction(h.cache, stream);
    }
  }

  lemma RoomAfterEviction(t: Cache, stream: bv64)
    requires CacheInv(t)
    ensures var t' := EvictDirty(t).cache;
            && t'.capacity == t.capacity && |t'.slots| < Room(t.capacity)
            && forall k :: k in t'.slots ==> k in t.slots
  {
    EvictDirtyKeeps(t);
    hide Without;
  }

  /** Storing a page under a key, in a cache with room or over the key's own page. */
  lemma StoreIsExact(h: Host, stream: bv64, k: UniqueKey, page: PageSlot, cache: Cache)
    requires HostOk(h, stream) && CacheInv(cache) && cache.slots == h.cache.slots[k := page]
    requires k == KeyFor(stream, page.lpa)
    requires page.status != DirtyNoFlush ==> page.data == Stored(h.backing, k)
    ensures var h' := h.(cache := cache);
            HostOk(h', stream) && forall x :: Seen(h', x) == if x == k then page.data else Seen(h, x)
  {
    hide KeyFor, CacheInv;
    var h' := h.(cache := cache);
    forall x ensures PageOk(h', stream, x) { assert PageOk(h, stream, x); }
  }

  lemma LoadIsExact(h: Host, stream: bv64, page: PageSlot)
    requires HostOk(h, stream) && KeyFor(stream, page.lpa) !in h.cache.slots
    requires page.status != DirtyNoFlush ==> page.data == Stored(h.backing, KeyFor(stream, page.lpa))
    ensures var h', k := Load(h, stream, page), KeyFor(stream, page.lpa);
            HostOk(h', stream) && forall x :: Seen(h', x) == if x == k then page.data else Seen(h, x)
  {
    var h1, k := MakeRoom(h, stream), KeyFor(stream, page.lpa);
    MakeRoomMakesRoom(h, stream);
    assert Seen(h1, k) == Seen(h, k);
    InsertKeeps(h1.cache, k, page);
    StoreInRoom(h1.cache, k, page);
    hide KeyFor, MakeRoom, CacheInv, InsertPage;
    StoreIsExact(h1, stream, k, page, InsertPage(h1.cache, k, page));
  }

  lemma StoreInRoom(t: Cache, k: UniqueKey, page: PageSlot)
    requires CacheInv(t) && k !in t.slots && |t.slots| < Room(t.capacity)
    ensures InsertPage(t, k, page).slots == t.slots[k := page]
  {
    assert Full(t) ==> t.order == [];
  }

  /** One operation, by packed key: the host sees what it would see on a plain map. */
  lemma KeyedExecIsPlain(h: Host, m: map<UniqueKey, Page>, stream: bv64, op: HostOp)
    requires HostOk(h, stream) && SameView(h, m) && Allowed(h, stream, op)
    ensures HostOk(Exec(h, stream, op), stream) && SameView(Exec(h, stream, op), PlainExec(m, stream, op))
    ensures Answer(h, stream, op) == PlainAnswer(m, stream, op)
  {
    hide KeyFor, CacheInv, Load, EvictAndWriteBack, Touch, Drop;
    match op
    case HostRead(l, b, t) =>
      var k := KeyFor(stream, l);
      if k in h.cache.slots {
        TouchKeeps(h.cache, k);
        SameSlots(h, stream, Get(h.cache, k));
      } else {
        LoadIsExact(h, stream, PageSlot(b, l, t, Stored(h.backing, k), Clean));
      }
    case HostWrite(l, d, b, t) =>
      var k, page := KeyFor(stream, l), PageSlot(b, l, t, d, DirtyNoFlush);
      if k in h.cache.slots {
        UpdateKeeps(h.cache, k, page);
        StoreIsExact(h, stream, k, page, UpdatePage(h.cache, k, page));
      } else {
        LoadIsExact(h, stream, page);
      }
    case HostFlush(l) =>
      if KeyFor(stream, l) in h.cache.slots { FlushIsInvisible(h, stream, KeyFor(stream, l)); }
    case HostRemove(l) =>
      if KeyFor(stream, l) in h.cache.slots { DropIsInvisible(h, stream, KeyFor(stream, l), h.backing); }
    case HostEvict => EvictionIsInvisible(h, stream);
  }

  lemma SameSlots(h: Host, stream: bv64, cache: Cache)
    requires HostOk(h, stream) && CacheInv(cache) && cache.slots == h.cache.slots
    ensures HostOk(h.(cache := cache), stream) && forall x :: Seen(h.(cache := cache), x) == Seen(h, x)
  {
    forall x ensures PageOk(h.(cache := cache), stream, x) { assert PageOk(h, stream, x); }
  }

  lemma FlushIsInvisible(h: Host, stream: bv64, k: UniqueKey)
    requires HostOk(h, stream) && k in h.cache.slots
    ensures var h' := Host(WriteBack(h.cache, k), h.backing[k := h.cache.slots[k].data]);
            HostOk(h', stream) && forall x :: Seen(h', x) == Seen(h, x)
  {
    StoreKeeps(h.cache, k, h.cache.slots[k].(status := DirtyFlush));
    hide KeyFor, CacheInv;
    var h' := Host(WriteBack(h.cache, k), h.backing[k := h.cache.slots[k].data]);
    forall x ensures PageOk(h', stream, x) && Seen(h', x) == Seen(h, x) { assert PageOk(h, stream, x); }
  }

  /** A run and the answers to its reads. */
  datatype HostRun = HostRun(host: Host, answers: seq<Page>)

  function RunHost(backing: map<UniqueKey, Page>, capacity: nat, stream: bv64, ops: seq<HostOp>): HostRun {
    if ops == [] then HostRun(Host(EmptyCache(capacity), backing), [])
    else
      var r, op := RunHost(backing, capacity, stream, ops[..|ops| - 1]), ops[|ops| - 1];
      HostRun(Exec(r.host, stream, op), r.answers + Answer(r.host, stream, op))
  }

  ghost predicate AllAllowed(backing: map<UniqueKey, Page>, capacity: nat, stream: bv64, ops: seq<HostOp>) {
    forall i :: 0 <= i < |ops| ==> Allowed(RunHost(backing, capacity, stream, ops[..i]).host, stream, ops[i])
  }

  datatype PlainRun = PlainRun(pages: map<UniqueKey, Page>, answers: seq<Page>)

  function RunPlain(backing: map<UniqueKey, Page>, stream: bv64, ops: seq<HostOp>): PlainRun {
    if ops == [] then PlainRun(backing, [])
    else
      var r, op := RunPlain(backing, stream, ops[..|ops| - 1]), ops[|ops| - 1];
      PlainRun(PlainExec(r.pages, stream, op), r.answers + PlainAnswer(r.pages, stream, op))
  }

  /** Write-back transparency by packed key: for any capacity and any run, the cache laid over the
      pages behind it is the plain map the run builds, and every read is answered from that map. */
  lemma {:induction false} KeyedCacheIsTransparent(backing: map<UniqueKey, Page>, capacity: nat, stream: bv64,
                                                   ops: seq<HostOp>)
    requires AllAllowed(backing, capacity, stream, ops)
    ensures var r, p := RunHost(backing, capacity, stream, ops), RunPlain(backing, stream, ops);
            && HostOk(r.host, stream) && |r.host.cache.slots| <= Room(capacity)
            && SameView(r.host, p.pages) && r.answers == p.answers
  {
    hide HostOk, SameView, Exec, Answer, PlainExec, PlainAnswer, Allowed, KeyFor;
    if ops == [] {
      StartIsPlain(backing, capacity, stream);
    } else {
      var before, op := ops[..|ops| - 1], ops[|ops| - 1];
      assert forall i :: 0 <= i < |before| ==> before[..i] == ops[..i] && before[i] == ops[i];
      KeyedCacheIsTransparent(backing, capacity, stream, before);
      var r, p := RunHost(backing, capacity, stream, before), RunPlain(backing, stream, before);
      assert Allowed(r.host, stream, op);
      CapacityStays(backing, capacity, stream, ops);
      KeyedExecIsPlain(r.host, p.pages, stream, op);
      HostSize(Exec(r.host, stream, op), stream);
    }
  }

  lemma StartIsPlain(backing: map<UniqueKey, Page>, capacity: nat, stream: bv64)
    ensures HostOk(Host(EmptyCache(capacity), backing), stream)
            && SameView(Host(EmptyCache(capacity), backing), backing)
  {
  }

  lemma HostSize(h: Host, stream: bv64)
    requires HostOk(h, stream)
    ensures |h.cache.slots| <= Room(h.cache.capacity)
  {
  }

  lemma {:induction false} CapacityStays(backing: map<UniqueKey, Page>, capacity: nat, stream: bv64, ops: seq<HostOp>)
    ensures RunHost(backing, capacity, stream, ops).host.cache.capacity == capacity
  {
    if ops != [] {
      CapacityStays(backing, capacity, stream, ops[..|ops| - 1]);
      hide Exec;
      ExecCapacity(RunHost(backing, capacity, stream, ops[..|ops| - 1]).host, stream, ops[|ops| - 1]);
    }
  }

  lemma ExecCapacity(h: Host, stream: bv64, op: HostOp)
    ensures Exec(h, stream, op).cache.capacity == h.cache.capacity
  {
    hide KeyFor, Touch, Without, EvictDirty, InsertPage;
  }

  // ----- the same over logical pages -----

  /** A 56-bit logical page number. */
  datatype Logical = Logical(lpa: bv64)

  function PageAt(m: map<Logical, Page>, lpa: bv64): Page {
    if Logical(lpa) in m then m[Logical(lpa)] else []
  }

  predicate OpPackable(op: HostOp) { op.HostEvict? || Packable(op.lpa) }

  function LogicalExec(m: map<Logical, Page>, op: HostOp): map<Logical, Page> {
    if op.HostWrite? then m[Logical(op.lpa) := op.data] else m
  }

  function LogicalAnswer(m: map<Logical, Page>, op: HostOp): seq<Page> {
    if op.HostRead? then [PageAt(m, op.lpa)] else []
  }

  datatype LogicalRun = LogicalRun(pages: map<Logical, Page>, answers: seq<Page>)

  function RunLogical(m: map<Logical, Page>, ops: seq<HostOp>): LogicalRun {
    if ops == [] then LogicalRun(m, [])
    else
      var r, op := RunLogical(m, ops[..|ops| - 1]), ops[|ops| - 1];
      LogicalRun(LogicalExec(r.pages, op), r.answers + LogicalAnswer(r.pages, op))
  }

  /** The keyed pages hold, under the key of each logical page, what the plain map holds for it. */
  ghost predicate Holds(stored: map<UniqueKey, Page>, stream: bv64, m: map<Logical, Page>) {
    forall lpa :: HoldsAt(stored, stream, m, lpa)
  }

  ghost predicate HoldsAt(stored: map<UniqueKey, Page>, stream: bv64, m: map<Logical, Page>, lpa: bv64) {
    Packable(lpa) ==> Stored(stored, KeyFor(stream, lpa)) == PageAt(m, lpa)
  }

  /** A keyed write is a write of one logical page. */
  lemma KeyedWrite(stored: map<UniqueKey, Page>, stream: bv64, m: map<Logical, Page>, op: HostOp)
    requires Holds(stored, stream, m) && OpPackable(op)
    ensures Holds(PlainExec(stored, stream, op), stream, LogicalExec(m, op))
    ensures PlainAnswer(stored, stream, op) == LogicalAnswer(m, op)
  {
    hide KeyFor, Packable;
    forall lpa ensures HoldsAt(PlainExec(stored, stream, op), stream, LogicalExec(m, op), lpa) {
      assert HoldsAt(stored, stream, m, lpa);
      if op.HostWrite? && Packable(lpa) { SameKey(stream, op.lpa, stream, lpa); }
    }
    if op.HostRead? { assert HoldsAt(stored, stream, m, op.lpa); }
  }

  /** What the host sees of logical page `lpa` is what the plain map holds for it. */
  ghost predicate ShowsAt(h: Host, stream: bv64, m: map<Logical, Page>, lpa: bv64) {
    Packable(lpa) ==> Seen(h, KeyFor(stream, lpa)) == PageAt(m, lpa)
  }

  ghost predicate Shows(h: Host, stream: bv64, m: map<Logical, Page>) {
    forall lpa :: ShowsAt(h, stream, m, lpa)
  }

  /** One operation: a write changes what the host sees of that logical page only, everything else
      changes nothing, and a read answers what the host saw. */
  lemma ExecIsPlain(h: Host, stream: bv64, m: map<Logical, Page>, op: HostOp)
    requires HostOk(h, stream) && Shows(h, stream, m) && Allowed(h, stream, op) && OpPackable(op)
    ensures HostOk(Exec(h, stream, op), stream) && Shows(Exec(h, stream, op), stream, LogicalExec(m, op))
    ensures Answer(h, stream, op) == LogicalAnswer(m, op)
  {
    hide KeyFor, Packable, HostOk, Exec, Allowed, Seen, CacheInv;
    var seen := SeenPages(h, stream);
    KeyedExecIsPlain(h, seen, stream, op);
    var h' := Exec(h, stream, op);
    forall lpa ensures ShowsAt(h', stream, LogicalExec(m, op), lpa) {
      assert ShowsAt(h, stream, m, lpa);
      if op.HostWrite? && Packable(lpa) { SameKey(stream, op.lpa, stream, lpa); }
    }
    if op.HostRead? { assert ShowsAt(h, stream, m, op.lpa); }
  }

  /** What the host sees, as one keyed map. */
  lemma SeenPages(h: Host, stream: bv64) returns (seen: map<UniqueKey, Page>)
    ensures SameView(h, seen)
  {
    seen := map k | k in h.cache.slots.Keys + h.backing.Keys :: Seen(h, k);
  }

  lemma {:induction false} KeyedRun(backing: map<UniqueKey, Page>, stream: bv64, m: map<Logical, Page>,
                                    ops: seq<HostOp>)
    requires Holds(backing, stream, m) && forall i :: 0 <= i < |ops| ==> OpPackable(ops[i])
    ensures var p, l := RunPlain(backing, stream, ops), RunLogical(m, ops);
            Holds(p.pages, stream, l.pages) && p.answers == l.answers
  {
    hide Holds, PlainExec, LogicalExec, PlainAnswer, LogicalAnswer, OpPackable;
    if ops != [] {
      var before := ops[..|ops| - 1];
      KeyedRun(backing, stream, m, before);
      KeyedWrite(RunPlain(backing, stream, before).pages, stream, RunLogical(m, before).pages, ops[|ops| - 1]);
    }
  }

  /** Write-back transparency over logical pages: the cache laid over the pages behind it is, for
      every 56-bit logical page, the plain map from logical pages to data that the run builds, and
      every read is answered from that map. */
  lemma {:induction false} CacheIsTransparent(backing: map<UniqueKey, Page>, capacity: nat, stream: bv64,
                                              m: map<Logical, Page>,
                           ops: seq<HostOp>)
    requires AllAllowed(backing, capacity, stream, ops) && Holds(backing, stream, m)
    requires forall i :: 0 <= i < |ops| ==> OpPackable(ops[i])
    ensures var r, l := RunHost(backing, capacity, stream, ops), RunLogical(m, ops);
            && r.answers == l.answers && |r.host.cache.slots| <= Room(capacity)
            && forall lpa :: Packable(lpa) ==> Seen(r.host, KeyFor(stream, lpa)) == PageAt(l.pages, lpa)
  {
    hide RunHost, RunPlain, RunLogical, AllAllowed, KeyFor, Seen, Stored, PageAt, Packable, HostOk;
    KeyedCacheIsTransparent(backing, capacity, stream, ops);
    KeyedRun(backing, stream, m, ops);
    var r, p, l := RunHost(backing, capacity, stream, ops), RunPlain(backing, stream, ops), RunLogical(m, ops);
    forall lpa | Packable(lpa) ensures Seen(r.host, KeyFor(stream, lpa)) == PageAt(l.pages, lpa) {
      assert HoldsAt(p.pages, stream, l.pages, lpa);
    }
  }

  // ----- insertion without an eviction before it -----

  /** The backing stores a cache may stand before. */
  ghost predicate Consistent(t: Cache, stream: bv64, backing: map<UniqueKey, Page>) {
    HostOk(Host(t, backing), stream)
  }

  /** Inserting page `page` under a new key changes what the host sees for that key only. */
  ghost predicate InsertIsSafe(t: Cache, k: UniqueKey, page: PageSlot, backing: map<UniqueKey, Page>) {
    forall x :: x != k ==> Seen(Host(InsertPage(t, k, page), backing), x) == Seen(Host(t, backing), x)
  }

  /** The insertions evict the least recently used page themselves and drop its data. This is
      harmless, whatever is stored, exactly when the cache has room or that page is not dirty. */
  lemma InsertSafeExactly(t: Cache, stream: bv64, k: UniqueKey, page: PageSlot, stored: map<UniqueKey, Page>)
    requires Consistent(t, stream, stored) && k !in t.slots
    ensures (forall backing :: Consistent(t, stream, backing) ==> InsertIsSafe(t, k, page, backing))
            <==> !(Full(t) && t.order != [] && Dirty(t, Last(t)))
  {
    hide KeyFor;
    EvictLruKeeps(t);
    if Full(t) && t.order != [] && Dirty(t, Last(t)) {
      LossWitness(t, stream, k, page, stored);
    } else {
      forall backing | Consistent(t, stream, backing) ensures InsertIsSafe(t, k, page, backing) {
        InsertIsHarmless(t, stream, k, page, backing);
      }
    }
  }

  lemma InsertIsHarmless(t: Cache, stream: bv64, k: UniqueKey, page: PageSlot, backing: map<UniqueKey, Page>)
    requires Consistent(t, stream, backing) && k !in t.slots
    requires !(Full(t) && t.order != [] && Dirty(t, Last(t)))
    ensures InsertIsSafe(t, k, page, backing)
  {
    if Full(t) && t.order != [] {
      assert PageOk(Host(t, backing), stream, Last(t));
    }
    hide KeyFor, CacheInv, Without;
  }

  lemma LossWitness(t: Cache, stream: bv64, k: UniqueKey, page: PageSlot, stored: map<UniqueKey, Page>)
    requires Consistent(t, stream, stored) && k !in t.slots
    requires Full(t) && t.order != [] && Dirty(t, Last(t))
    ensures exists backing :: Consistent(t, stream, backing) && !InsertIsSafe(t, k, page, backing)
  {
    var x := Last(t);
    var backing := stored[x := t.slots[x].data + [0]];
    forall y ensures PageOk(Host(t, backing), stream, y) { assert PageOk(Host(t, stored), stream, y); }
    assert Consistent(t, stream, backing);
    hide KeyFor, CacheInv, Without;
    assert Seen(Host(InsertPage(t, k, page), backing), x) == Stored(backing, x);
    assert !InsertIsSafe(t, k, page, backing);
  }

  /** The loss is reachable: after one write into a cache of one page with nothing stored behind
      it, inserting any other page loses that write. */
  lemma {:induction false} OneWriteCanBeLost(stream: bv64, lpa: bv64, other: bv64, data: Page, bitmap: bv64,
                                             time: nat, page: PageSlot)
    requires Packable(lpa) && Packable(other) && lpa != other && data != []
    ensures var r := RunHost(map[], 1, stream, [HostWrite(lpa, data, bitmap, time)]);
            && AllAllowed(map[], 1, stream, [HostWrite(lpa, data, bitmap, time)])
            && Consistent(r.host.cache, stream, r.host.backing)
            && Full(r.host.cache) && r.host.cache.order != [] && Dirty(r.host.cache, Last(r.host.cache))
            && Seen(r.host, KeyFor(stream, lpa)) == data
            && var evicted := InsertPage(r.host.cache, KeyFor(stream, other), page);
               Seen(Host(evicted, r.host.backing), KeyFor(stream, lpa)) == []
  {
    SameKey(stream, lpa, stream, other);
    hide KeyFor, Packable, Exec, InsertPage, Full, Dirty, CacheInv;
    var k, slot := KeyFor(stream, lpa), PageSlot(bitmap, lpa, time, data, DirtyNoFlush);
    var op := HostWrite(lpa, data, bitmap, time);
    var start, h := Host(EmptyCache(1), map[]), Host(Cache(map[k := slot], [k], 1), map[]);
    StartIsPlain(map[], 1, stream);
    FirstWrite(stream, op);
    OneStep(map[], 1, stream, op, h);
    ExecIsPlain(start, stream, map[], op);
    OnePageFull(k, slot);
    OnePageLost(k, slot, KeyFor(stream, other), page);
  }

  lemma FirstWrite(stream: bv64, op: HostOp)
    requires op.HostWrite?
    ensures var k := KeyFor(stream, op.lpa);
            Exec(Host(EmptyCache(1), map[]), stream, op)
            == Host(Cache(map[k := PageSlot(op.bitmap, op.lpa, op.time, op.data, DirtyNoFlush)], [k], 1), map[])
  {
    hide KeyFor;
  }

  lemma {:induction false} OneStep(backing: map<UniqueKey, Page>, capacity: nat, stream: bv64, op: HostOp, h: Host)
    requires !op.HostRemove? && Exec(Host(EmptyCache(capacity), backing), stream, op) == h
    ensures RunHost(backing, capacity, stream, [op]).host == h && AllAllowed(backing, capacity, stream, [op])
  {
    hide Exec, KeyFor, Dirty;
    assert [op][..0] == [];
  }

  lemma OnePageFull(k: UniqueKey, slot: PageSlot)
    requires slot.status == DirtyNoFlush
    ensures var t := Cache(map[k := slot], [k], 1); Full(t) && Last(t) == k && Dirty(t, k)
  {
    assert map[k := slot].Keys == {k};
    assert |map[k := slot]| == |map[k := slot].Keys| == 1;
  }

  lemma OnePageLost(k: UniqueKey, slot: PageSlot, other: UniqueKey, page: PageSlot)
    requires slot.status == DirtyNoFlush && k != other
    ensures k !in InsertPage(Cache(map[k := slot], [k], 1), other, page).slots
  {
    OnePageFull(k, slot);
    hide Full, Without;
  }

  // ----- the cache itself -----

  class DataCache {
    var slots: map<UniqueKey, Held<PageSlot>>
    var lruList: seq<Node<UniqueKey>>
    var nextHandle: nat    // identities for list nodes
    const capacity: nat

    ghost predicate Valid()
      reads this
    {
      Linked(lruList, Positions(slots), nextHandle) && |slots| <= Room(capacity)
    }

    function Value(): Cache
      reads this
    {
      Cache(Entries(slots), KeysOf(lruList), capacity)
    }

    /** A valid cache has a well-formed value. */
    lemma ValueInv()
      requires Valid()
      ensures CacheInv(Value()) && |lruList| == |slots|
    {
      SameSize(slots);
      KeysAreThePositions(lruList, Positions(slots), nextHandle);
      hide KeysOf;
    }

    constructor (capacity: nat)
      ensures Valid() && Value() == EmptyCache(capacity)
    {
      this.capacity := capacity;
      slots, lruList, nextHandle := map[], [], 0;
    }

    method Exists(stream: bv64, lpa: bv64) returns (found: bool)
      ensures found <==> KeyFor(stream, lpa) in Value().slots
    {
      found := KeyFor(stream, lpa) in slots;
    }

    /** Splice the node of a present key to the front, unless it is there already. */
    method MoveToFront(k: UniqueKey)
      requires Valid() && k in slots
      modifies this`lruList
      ensures Valid() && Value() == old(Value()).(order := Touch(old(Value()).order, k))
    {
      hide Linked, Splice, Touch;
      LinkedSplice(lruList, Positions(slots), nextHandle, k);
      if lruList[0].key != k {
        lruList := Splice(lruList, slots[k].pos);
      }
    }

    method SetPage(k: UniqueKey, page: PageSlot)
      requires Valid() && k in slots
      modifies this`slots
      ensures Valid() && Value() == old(Value()).(slots := old(Value()).slots[k := page])
      ensures slots.Keys == old(slots).Keys
    {
      hide Linked;
      var x := slots[k].(entry := page);
      StoreSlot(slots, k, x);
      slots := slots[k := x];
    }

    method GetSlot(stream: bv64, lpa: bv64) returns (page: PageSlot)
      requires Valid()
      modifies this`lruList
      ensures Valid() && Value() == Get(old(Value()), KeyFor(stream, lpa))
      ensures var k := KeyFor(stream, lpa); page == if k in Value().slots then Value().slots[k] else NO_SLOT
    {
      hide KeyFor, DataCache.Valid, Touch;
      var k := KeyFor(stream, lpa);
      if k !in slots {
        return NO_SLOT;
      }
      MoveToFront(k);
      page := slots[k].entry;
    }

    /** Erase a key from the map and its own node from the list. */
    method Erase(k: UniqueKey)
      requires Valid() && k in slots
      modifies this`slots, this`lruList
      ensures Valid() && Value() == Drop(old(Value()), k)
    {
      hide Linked, Unlink, Without, KeysOf;
      LinkedUnlink(lruList, Positions(slots), nextHandle, k);
      DropSlot(slots, k);
      lruList := Unlink(lruList, slots[k].pos);
      slots := slots - {k};
    }

    /** A present page is dirty when its slot says so. */
    lemma StatusOf(k: UniqueKey)
      ensures k in Value().slots <==> k in slots
      ensures k in slots ==> Value().slots[k] == slots[k].entry
      ensures Dirty(Value(), k) <==> k in slots && slots[k].entry.status == DirtyNoFlush
    {
    }

    lemma KeyIsPresent(i: nat)
      requires Valid() && i < |lruList|
      ensures lruList[i].key in slots && lruList[i].key == Value().order[i]
    {
      assert NodeOk(lruList[i], Positions(slots), nextHandle);
    }

    /** The reverse scan: the index of the last dirty page, if there is one. */
    method LastDirtyNode() returns (r: Option<nat>)
      requires Valid()
      ensures r == LastDirty(Value(), |lruList|)
    {
      hide DataCache.Valid, Dirty, Entries, KeysOf;
      ghost var t := Value();
      var i := |lruList|;
      while i > 0
        invariant 0 <= i <= |t.order| == |lruList|
        invariant forall j :: i <= j < |t.order| ==> !Dirty(t, t.order[j])
      {
        i := i - 1;
        KeyIsPresent(i);
        StatusOf(lruList[i].key);
        if slots[lruList[i].key].entry.status == DirtyNoFlush {
          return Some(i);
        }
      }
      r := None;
    }

    method EvictOneDirtyPage() returns (page: PageSlot)
      requires Valid()
      modifies this`slots, this`lruList
      ensures Valid() && Evicted(Value(), page) == EvictDirty(old(Value()))
    {
      hide DataCache.Valid, Drop, EvictDirty, Dirty, Entries, KeysOf;
      ghost var t := Value();
      ValueInv();
      if |slots| == 0 {
        NothingToEvict(t);
        return NO_SLOT;
      }
      var dirty := LastDirtyNode();
      var i := if dirty.Some? then dirty.value else |lruList| - 1;
      var k := lruList[i].key;
      KeyIsPresent(i);
      StatusOf(k);
      page := slots[k].entry;
      if dirty.Some? {
        LastDirtyIsEvicted(t, i);
      } else {
        LastIsEvicted(t);
        page := page.(status := Empty);
      }
      Erase(k);
    }

    method EvictOnePageLRU() returns (page: PageSlot)
      requires Valid()
      modifies this`slots, this`lruList
      ensures Valid() && Evicted(Value(), page) == EvictLru(old(Value()))
    {
      hide DataCache.Valid, Drop;
      SameSize(slots);
      ValueInv();
      if |slots| == 0 {
        return NO_SLOT;
      }
      var k := lruList[|lruList| - 1].key;
      assert k == Last(Value()) && k in Value().order;
      page := slots[k].entry;
      Erase(k);
    }

    method ChangeSlotStatusToWriteBack(stream: bv64, lpa: bv64)
      requires Valid()
      modifies this`slots
      ensures Valid() && Value() == WriteBack(old(Value()), KeyFor(stream, lpa))
    {
      hide KeyFor, DataCache.Valid;
      var k := KeyFor(stream, lpa);
      if k in slots {
        SetPage(k, slots[k].entry.(status := DirtyFlush));
      }
    }

    /** As intended: the code erases the map entry first and then reads the iterator from it. */
    method RemoveSlot(stream: bv64, lpa: bv64)
      requires Valid()
      modifies this`slots, this`lruList
      ensures Valid() && Value() == Remove(old(Value()), KeyFor(stream, lpa))
    {
      hide KeyFor, DataCache.Valid, Drop;
      var k := KeyFor(stream, lpa);
      if k in slots {
        Erase(k);
      }
    }

    /** The common part of the two insertions. */
    method InsertNew(k: UniqueKey, page: PageSlot)
      requires Valid()
      modifies this
      ensures Valid() && Value() == InsertPage(old(Value()), k, page) && Inserted(old(Value()), k, page, Value())
    {
      hide Linked, Touch, EvictLru;
      SameSize(slots);
      ValueInv();
      EvictLruKeeps(Value());
      InsertsExactly(Value(), k, page);
      hide Inserted;
      if k !in slots {
        if |slots| >= capacity {
          var dropped := EvictOnePageLRU();
          SameSize(slots);
          assert k !in Value().slots;
        }
        Push(k, page);
      }
    }

    method Push(k: UniqueKey, page: PageSlot)
      requires Valid() && k !in slots && |slots| < Room(capacity)
      modifies this
      ensures Valid()
      ensures Value() == old(Value()).(slots := old(Value()).slots[k := page], order := [k] + old(Value()).order)
    {
      hide Linked, Touch;
      LinkedPush(lruList, Positions(slots), nextHandle, k);
      StoreSlot(slots, k, Held(page, nextHandle));
      lruList := [Node(nextHandle, k)] + lruList;
      slots := slots[k := Held(page, nextHandle)];
      nextHandle := nextHandle + 1;
    }

    method InsertReadData(stream: bv64, lpa: bv64, data: Page, timestamp: nat, bitmap: bv64)
      requires Valid()
      modifies this
      ensures Valid()
      ensures Value() == InsertPage(old(Value()), KeyFor(stream, lpa), PageSlot(bitmap, lpa, timestamp, data, Clean))
      ensures Inserted(old(Value()), KeyFor(stream, lpa), PageSlot(bitmap, lpa, timestamp, data, Clean), Value())
    {
      InsertNew(KeyFor(stream, lpa), PageSlot(bitmap, lpa, timestamp, data, Clean));
    }

    method InsertWriteData(stream: bv64, lpa: bv64, data: Page, timestamp: nat, bitmap: bv64)
      requires Valid()
      modifies this
      ensures Valid()
      ensures Value() == InsertPage(old(Value()), KeyFor(stream, lpa),
                                    PageSlot(bitmap, lpa, timestamp, data, DirtyNoFlush))
      ensures Inserted(old(Value()), KeyFor(stream, lpa), PageSlot(bitmap, lpa, timestamp, data, DirtyNoFlush), Value())
    {
      InsertNew(KeyFor(stream, lpa), PageSlot(bitmap, lpa, timestamp, data, DirtyNoFlush));
    }

    method UpdateData(stream: bv64, lpa: bv64, data: Page, timestamp: nat, bitmap: bv64)
      requires Valid()
      modifies this`slots, this`lruList
      ensures Valid()
      ensures Value() == UpdatePage(old(Value()), KeyFor(stream, lpa),
                                    PageSlot(bitmap, lpa, timestamp, data, DirtyNoFlush))
    {
      hide KeyFor, DataCache.Valid, Touch;
      var k := KeyFor(stream, lpa);
      if k in slots {
        SetPage(k, PageSlot(bitmap, lpa, timestamp, data, DirtyNoFlush));
        MoveToFront(k);
      }
    }
  }
}
