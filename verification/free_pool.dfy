/** The free-block pool: an ordered multimap from wear to block. Insertion goes behind every
    entry of the same key, removal takes the front. */
module FreePool {

  datatype PoolEntry = PoolEntry(key: nat, block: nat)

  ghost predicate Sorted(pool: seq<PoolEntry>) {
    forall i, j :: 0 <= i < j < |pool| ==> pool[i].key <= pool[j].key
  }

  ghost predicate DistinctBlocks(pool: seq<PoolEntry>) {
    forall i, j :: 0 <= i < j < |pool| ==> pool[i].block != pool[j].block
  }

  ghost predicate InPool(pool: seq<PoolEntry>, b: nat) {
    exists i :: 0 <= i < |pool| && pool[i].block == b
  }

  /** Position just behind the last entry whose key is at most `key`. */
  function UpperBound(pool: seq<PoolEntry>, key: nat): (r: nat)
    ensures r <= |pool|
    ensures forall i :: 0 <= i < r ==> pool[i].key <= key
    ensures r < |pool| ==> key < pool[r].key
  {
    if pool == [] || key < pool[0].key then 0 else 1 + UpperBound(pool[1..], key)
  }

  function Insert(pool: seq<PoolEntry>, e: PoolEntry): seq<PoolEntry> {
    var k := UpperBound(pool, e.key);
    pool[..k] + [e] + pool[k..]
  }

  /** Insertion keeps the pool sorted and duplicate free. */
  lemma InsertKeepsOrder(pool: seq<PoolEntry>, e: PoolEntry)
    requires Sorted(pool)
    ensures Sorted(Insert(pool, e))
    ensures |Insert(pool, e)| == |pool| + 1
    ensures DistinctBlocks(pool) && !InPool(pool, e.block) ==> DistinctBlocks(Insert(pool, e))
  {
  }

  lemma InsertMembers(pool: seq<PoolEntry>, e: PoolEntry, b: nat)
    ensures InPool(Insert(pool, e), b) <==> b == e.block || InPool(pool, b)
  {
    var k := UpperBound(pool, e.key);
    var r := Insert(pool, e);
    assert r[k] == e;
    if InPool(pool, b) {
      var i :| 0 <= i < |pool| && pool[i].block == b;
      assert r[if i < k then i else i + 1] == pool[i];
    }
  }

  /** Stability: among equal keys the pool serves in insertion order, and it serves no other
      key earlier than before: a sorted pool is cut exactly between the keys up to e.key and
      the larger ones. */
  lemma InsertIsStable(pool: seq<PoolEntry>, e: PoolEntry)
    requires Sorted(pool)
    ensures exists k: nat :: k <= |pool|
              && Insert(pool, e) == pool[..k] + [e] + pool[k..]
              && (forall i :: 0 <= i < k ==> pool[i].key <= e.key)
              && (forall i :: k <= i < |pool| ==> e.key < pool[i].key)
  {
    var k := UpperBound(pool, e.key);
    assert k < |pool| ==> forall i :: k <= i < |pool| ==> pool[k].key <= pool[i].key;
    assert Insert(pool, e) == pool[..k] + [e] + pool[k..];
  }

  /** With one key for every block the pool is a first-in first-out queue. */
  lemma {:induction false} InsertIsFifo(pool: seq<PoolEntry>, e: PoolEntry)
    requires forall i :: 0 <= i < |pool| ==> pool[i].key == e.key
    ensures Insert(pool, e) == pool + [e]
  {
    assert UpperBound(pool, e.key) == |pool|;
  }

  /** The front of a sorted pool has the least key. */
  lemma FrontIsLeast(pool: seq<PoolEntry>, i: nat)
    requires Sorted(pool) && i < |pool|
    ensures pool[0].key <= pool[i].key
  {
  }
}
