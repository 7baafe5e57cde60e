/** Recency lists: sequences of distinct keys, most recently touched first, and the node list
    that realises them. */
module Lru {

  ghost predicate NoDup<K>(keys: seq<K>) {
    forall i, j :: 0 <= i < j < |keys| ==> keys[i] != keys[j]
  }

  function Position<K(==)>(keys: seq<K>, k: K): (i: nat)
    requires k in keys
    ensures i < |keys| && keys[i] == k
    ensures forall j :: 0 <= j < i ==> keys[j] != k
  {
    if keys[0] == k then 0 else 1 + Position(keys[1..], k)
  }

  function Without<K(==)>(keys: seq<K>, k: K): seq<K> {
    if k in keys then keys[..Position(keys, k)] + keys[Position(keys, k) + 1..] else keys
  }

  /** A touched key comes first, the others keep their order. */
  function Touch<K(==)>(keys: seq<K>, k: K): seq<K> { [k] + Without(keys, k) }

  lemma CutAt<K>(s: seq<K>, i: nat)
    requires i < |s|
    ensures var r := s[..i] + s[i + 1..];
            |r| == |s| - 1 && forall j :: 0 <= j < |r| ==> r[j] == s[if j < i then j else j + 1]
  {
  }

  lemma {:induction false} WithoutAt<K>(keys: seq<K>, k: K)
    requires k in keys
    ensures var i := Position(keys, k); var r := Without(keys, k);
            && |r| == |keys| - 1
            && forall j :: 0 <= j < |r| ==> r[j] == keys[if j < i then j else j + 1]
  {
    hide Position;
    var i := Position(keys, k);
    assert Without(keys, k) == keys[..i] + keys[i + 1..];
    hide Without;
    CutAt(keys, i);
  }

  lemma WithoutNoDup<K>(keys: seq<K>, k: K)
    requires NoDup(keys)
    ensures NoDup(Without(keys, k)) && k !in Without(keys, k)
  {
    if k in keys {
      WithoutAt(keys, k);
      hide Without;
    }
  }

  lemma WithoutMembers<K>(keys: seq<K>, k: K, x: K)
    requires NoDup(keys)
    ensures x in Without(keys, k) <==> x in keys && x != k
    ensures |Without(keys, k)| == if k in keys then |keys| - 1 else |keys|
  {
    WithoutNoDup(keys, k);
    if k in keys {
      WithoutAt(keys, k);
      hide Without, NoDup;
      if x in keys && x != k {
        var i, j := Position(keys, k), Position(keys, x);
        assert Without(keys, k)[if j < i then j else j - 1] == x;
      }
    }
  }

  lemma TouchMembers<K>(keys: seq<K>, k: K, x: K)
    requires NoDup(keys)
    ensures NoDup(Touch(keys, k))
    ensures x in Touch(keys, k) <==> x in keys || x == k
  {
    WithoutMembers(keys, k, x);
    WithoutNoDup(keys, k);
  }

  // ----- recency -----

  /** One more than the index of the last touch of `k`; 0 when it was never touched. */
  ghost function LastTouch<K>(touches: seq<K>, k: K): nat {
    if touches == [] then 0
    else if touches[|touches| - 1] == k then |touches|
    else LastTouch(touches[..|touches| - 1], k)
  }

  lemma {:induction false} LastTouchBound<K>(touches: seq<K>, k: K)
    ensures LastTouch(touches, k) <= |touches|
  {
    if touches != [] { LastTouchBound(touches[..|touches| - 1], k); }
  }

  lemma {:induction false} LastTouchSnoc<K>(touches: seq<K>, k: K, x: K)
    ensures LastTouch(touches + [k], x) == if x == k then |touches| + 1 else LastTouch(touches, x)
  {
    assert (touches + [k])[..|touches|] == touches;
  }

  /** The list is strictly ordered by last touch, latest first, and holds touched keys only. */
  ghost predicate ByRecency<K>(keys: seq<K>, touches: seq<K>) {
    && (forall i :: 0 <= i < |keys| ==> LastTouch(touches, keys[i]) > 0)
    && forall i, j :: 0 <= i < j < |keys| ==> LastTouch(touches, keys[i]) > LastTouch(touches, keys[j])
  }

  lemma {:induction false} WithoutByRecency<K>(keys: seq<K>, touches: seq<K>, k: K)
    requires ByRecency(keys, touches)
    ensures ByRecency(Without(keys, k), touches)
  {
    if k in keys {
      WithoutAt(keys, k);
      hide Without, LastTouch;
    }
  }

  /** Touching a key keeps the list ordered by last touch. */
  lemma {:induction false} TouchByRecency<K>(keys: seq<K>, touches: seq<K>, k: K)
    requires NoDup(keys) && ByRecency(keys, touches)
    ensures ByRecency(Touch(keys, k), touches + [k])
  {
    var rest := Without(keys, k);
    WithoutByRecency(keys, touches, k);
    forall j | 0 <= j < |rest|
      ensures LastTouch(touches + [k], rest[j]) == LastTouch(touches, rest[j]) <= |touches|
    {
      WithoutMembers(keys, k, rest[j]);
      LastTouchSnoc(touches, k, rest[j]);
      LastTouchBound(touches, rest[j]);
    }
    LastTouchSnoc(touches, k, k);
    hide Without, LastTouch;
  }

  lemma DropLastByRecency<K>(keys: seq<K>, touches: seq<K>)
    requires ByRecency(keys, touches) && keys != []
    ensures ByRecency(keys[..|keys| - 1], touches)
  {
  }

  // ----- nodes -----

  /** A list node: the identity an iterator refers to, and the key stored in it. */
  datatype Node<K> = Node(handle: nat, key: K)

  function KeysOf<K>(list: seq<Node<K>>): (r: seq<K>)
    ensures |r| == |list| && forall i :: 0 <= i < |list| ==> r[i] == list[i].key
  {
    seq(|list|, i requires 0 <= i < |list| => list[i].key)
  }

  /** Where the iterator `handle` points. */
  function Find<K>(list: seq<Node<K>>, handle: nat): (i: nat)
    requires exists j :: 0 <= j < |list| && list[j].handle == handle
    ensures i < |list| && list[i].handle == handle
  {
    if list[0].handle == handle then 0
    else
      assert exists j :: 0 <= j < |list[1..]| && list[1..][j].handle == handle by {
        var j :| 0 <= j < |list| && list[j].handle == handle;
        assert list[1..][j - 1].handle == handle;
      }
      1 + Find(list[1..], handle)
  }

  /** splice(begin, list, iterator). */
  function Splice<K>(list: seq<Node<K>>, handle: nat): seq<Node<K>>
    requires exists j :: 0 <= j < |list| && list[j].handle == handle
  {
    var i := Find(list, handle);
    [list[i]] + list[..i] + list[i + 1..]
  }

  /** erase(iterator). */
  function Unlink<K>(list: seq<Node<K>>, handle: nat): seq<Node<K>>
    requires exists j :: 0 <= j < |list| && list[j].handle == handle
  {
    var i := Find(list, handle);
    list[..i] + list[i + 1..]
  }

  // ----- a list and the iterators stored for its keys -----

  ghost predicate NodeOk<K>(n: Node<K>, pos: map<K, nat>, next: nat) {
    n.handle < next && n.key in pos && pos[n.key] == n.handle
  }

  /** The stored iterator of every key points to the key's own node, and to no other. */
  ghost predicate Linked<K>(list: seq<Node<K>>, pos: map<K, nat>, next: nat) {
    && NoDup(KeysOf(list))
    && (forall n :: n in list ==> NodeOk(n, pos, next))
    && (forall k :: k in pos ==> k in KeysOf(list))
    && (forall k, k' :: k in pos && k' in pos && pos[k] == pos[k'] ==> k == k')
  }

  lemma NodeOf<K>(list: seq<Node<K>>, pos: map<K, nat>, next: nat, k: K) returns (i: nat)
    requires Linked(list, pos, next) && k in pos
    ensures i < |list| && list[i] == Node(pos[k], k) && list[i].handle == pos[k]
    ensures Find(list, pos[k]) == i && Position(KeysOf(list), k) == i
  {
    i := Position(KeysOf(list), k);
    assert list[i].key == k && NodeOk(list[i], pos, next);
    var j := Find(list, pos[k]);
    assert NodeOk(list[j], pos, next);
    assert KeysOf(list)[j] == k;
  }

  lemma {:induction false} KeysAreThePositions<K>(list: seq<Node<K>>, pos: map<K, nat>, next: nat)
    requires Linked(list, pos, next)
    ensures forall k :: k in KeysOf(list) <==> k in pos
    ensures |list| == |pos|
  {
    var keys := KeysOf(list);
    forall k | k in keys ensures k in pos {
      assert NodeOk(list[Position(keys, k)], pos, next);
    }
    NoDupSize(keys);
    assert pos.Keys == set k | k in keys;
  }

  lemma {:induction false} NoDupSize<K>(keys: seq<K>)
    requires NoDup(keys)
    ensures |set k | k in keys| == |keys|
  {
    if keys != [] {
      var shorter, k := keys[..|keys| - 1], keys[|keys| - 1];
      NoDupSize(shorter);
      assert (set x | x in keys) == (set x | x in shorter) + {k};
    }
  }

  /** push_front of a new node for a new key. */
  lemma LinkedPush<K>(list: seq<Node<K>>, pos: map<K, nat>, next: nat, k: K)
    requires Linked(list, pos, next) && k !in pos
    ensures Linked([Node(next, k)] + list, pos[k := next], next + 1)
    ensures KeysOf([Node(next, k)] + list) == [k] + KeysOf(list) == Touch(KeysOf(list), k)
  {
    var list', keys := [Node(next, k)] + list, KeysOf(list);
    KeysAreThePositions(list, pos, next);
    assert KeysOf(list') == [k] + keys;
    forall n | n in list' ensures NodeOk(n, pos[k := next], next + 1) {
      assert n == Node(next, k) || NodeOk(n, pos, next);
    }
    forall x | x in pos ensures x in KeysOf(list') && pos[x] < next {
      var i := NodeOf(list, pos, next, x);
      assert KeysOf(list')[i + 1] == x && NodeOk(list[i], pos, next);
    }
    assert KeysOf(list')[0] == k;
  }

  /** Splicing the node of a key to the front touches the key. */
  lemma LinkedSplice<K>(list: seq<Node<K>>, pos: map<K, nat>, next: nat, k: K)
    requires Linked(list, pos, next) && k in pos
    ensures exists j :: 0 <= j < |list| && list[j].handle == pos[k]
    ensures Linked(Splice(list, pos[k]), pos, next)
    ensures KeysOf(Splice(list, pos[k])) == Touch(KeysOf(list), k)
    ensures list[0].key == k ==> Touch(KeysOf(list), k) == KeysOf(list)
  {
    var keys := KeysOf(list);
    var i := NodeOf(list, pos, next, k);
    assert keys[i] == list[i].key;
    SpliceKeys(list, i);
    hide Position, Find;
    forall x ensures x in Touch(keys, k) <==> x in keys || x == k { TouchMembers(keys, k, x); }
    TouchMembers(keys, k, k);
    hide Touch, NoDup, NodeOk;
  }

  /** A list with node `i` moved to the front holds the same nodes. */
  lemma SpliceKeys<K>(list: seq<Node<K>>, i: nat)
    requires i < |list|
    ensures var list' := [list[i]] + list[..i] + list[i + 1..]; var keys := KeysOf(list);
            && KeysOf(list') == [keys[i]] + (keys[..i] + keys[i + 1..])
            && (forall n :: n in list' ==> n in list)
            && (i == 0 ==> list' == list && KeysOf(list') == keys)
  {
  }

  /** Erasing the node of a key drops the key. */
  lemma LinkedUnlink<K>(list: seq<Node<K>>, pos: map<K, nat>, next: nat, k: K)
    requires Linked(list, pos, next) && k in pos
    ensures exists j :: 0 <= j < |list| && list[j].handle == pos[k]
    ensures Linked(Unlink(list, pos[k]), pos - {k}, next)
    ensures KeysOf(Unlink(list, pos[k])) == Without(KeysOf(list), k)
  {
    hide Position, Find, NodeOk;
    var keys := KeysOf(list);
    var i := NodeOf(list, pos, next, k);
    assert keys[i] == list[i].key;
    UnlinkKeys(list, i);
    NodesRemain(list, pos, next, k, i);
    forall x ensures x in Without(keys, k) <==> x in keys && x != k { WithoutMembers(keys, k, x); }
    WithoutNoDup(keys, k);
    hide NoDup;
  }

  /** The nodes other than the one of `k` keep their keys and iterators. */
  lemma NodesRemain<K>(list: seq<Node<K>>, pos: map<K, nat>, next: nat, k: K, i: nat)
    requires Linked(list, pos, next) && i < |list| && list[i].key == k
    ensures forall n :: n in list[..i] + list[i + 1..] ==> NodeOk(n, pos - {k}, next)
  {
    var list' := list[..i] + list[i + 1..];
    forall n | n in list' ensures NodeOk(n, pos - {k}, next) {
      var j :| 0 <= j < |list'| && list'[j] == n;
      var at := if j < i then j else j + 1;
      assert list[at] == n && NodeOk(n, pos, next);
      assert KeysOf(list)[at] == n.key && KeysOf(list)[i] == k;
    }
  }

  lemma UnlinkKeys<K>(list: seq<Node<K>>, i: nat)
    requires i < |list|
    ensures var list' := list[..i] + list[i + 1..]; var keys := KeysOf(list);
            && KeysOf(list') == keys[..i] + keys[i + 1..]
            && (forall n :: n in list' ==> n in list)
  {
  }

  /** The last node is the node of its key, so popping it is erasing that node. */
  lemma LinkedPop<K>(list: seq<Node<K>>, pos: map<K, nat>, next: nat)
    requires Linked(list, pos, next) && list != []
    ensures var last := |list| - 1;
            && Linked(list[..last], pos - {list[last].key}, next)
            && KeysOf(list[..last]) == KeysOf(list)[..last] == Without(KeysOf(list), list[last].key)
  {
    var last := |list| - 1;
    var k := list[last].key;
    assert NodeOk(list[last], pos, next);
    var i := NodeOf(list, pos, next, k);
    assert KeysOf(list)[last] == k;
    LinkedUnlink(list, pos, next, k);
    assert Unlink(list, pos[k]) == list[..last];
    assert KeysOf(list[..last]) == KeysOf(list)[..last];
  }

  // ----- slots -----

  /** A hash map value: an entry and the iterator to its list node. */
  datatype Held<E> = Held(entry: E, pos: nat)

  function Entries<K, E>(m: map<K, Held<E>>): map<K, E> {
    map k | k in m :: m[k].entry
  }

  ghost function Positions<K, E>(m: map<K, Held<E>>): map<K, nat> {
    map k | k in m :: m[k].pos
  }

  lemma StoreSlot<K, E>(m: map<K, Held<E>>, k: K, x: Held<E>)
    ensures Entries(m[k := x]) == Entries(m)[k := x.entry]
    ensures Positions(m[k := x]) == Positions(m)[k := x.pos]
    ensures k in m && x.pos == m[k].pos ==> Positions(m[k := x]) == Positions(m)
  {
  }

  lemma DropSlot<K, E>(m: map<K, Held<E>>, k: K)
    ensures Entries(m - {k}) == Entries(m) - {k} && Positions(m - {k}) == Positions(m) - {k}
  {
  }

  lemma SameSize<K, E>(m: map<K, Held<E>>)
    ensures |Entries(m)| == |m| && Entries(m).Keys == m.Keys && |Positions(m)| == |m|
  {
    assert Entries(m).Keys == m.Keys && Positions(m).Keys == m.Keys;
    assert |Entries(m).Keys| == |m.Keys|;
  }
}
