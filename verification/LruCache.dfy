/** The page-link cache: a doubly linked list between two sentinels, and a map into it. */
module LruCache {
  import opened Keys

  /** A cached value; None stands for nil. */
  type Any<V> = Option<V>

  /** The abstract cache: key and value pairs, most recently used first. */
  type Recency<V> = seq<(DocId, Any<V>)>

  // ----- what the operations mean

  ghost predicate DistinctKeys<V>(s: Recency<V>) {
    forall i, j :: 0 <= i < j < |s| ==> s[i].0 != s[j].0
  }

  predicate HasKey<V>(s: Recency<V>, k: DocId) {
    exists i :: 0 <= i < |s| && s[i].0 == k
  }

  function Without<V>(s: Recency<V>, k: DocId): Recency<V> {
    if s == [] then []
    else if s[0].0 == k then Without(s[1..], k)
    else [s[0]] + Without(s[1..], k)
  }

  /** What Get returns: the value, or nil for an absent key. */
  function Lookup<V>(s: Recency<V>, k: DocId): Any<V> {
    if s == [] then None else if s[0].0 == k then s[0].1 else Lookup(s[1..], k)
  }

  function Touched<V>(s: Recency<V>, k: DocId): Recency<V> {
    if HasKey(s, k) then [(k, Lookup(s, k))] + Without(s, k) else s
  }

  function Stored<V>(s: Recency<V>, capacity: nat, k: DocId, v: Any<V>): Recency<V>
    requires capacity >= 1
  {
    var t := Without(s, k);
    [(k, v)] + if |t| == capacity then t[..capacity - 1] else t
  }

  lemma TailKey<V>(s: Recency<V>, k: DocId)
    requires s != [] && !HasKey(s, k)
    ensures s[0].0 != k && !HasKey(s[1..], k)
  {
    assert forall i :: 0 <= i < |s[1..]| ==> s[1..][i] == s[i + 1];
  }

  lemma {:induction false} WithoutAbsent<V>(s: Recency<V>, k: DocId)
    requires !HasKey(s, k)
    ensures Without(s, k) == s
  {
    hide HasKey;
    if s != [] {
      TailKey(s, k);
      WithoutAbsent(s[1..], k);
    }
  }

  lemma {:induction false} WithoutAt<V>(s: Recency<V>, i: nat)
    requires DistinctKeys(s) && i < |s|
    ensures Without(s, s[i].0) == s[..i] + s[i + 1..]
    ensures Lookup(s, s[i].0) == s[i].1
  {
    var k := s[i].0;
    assert DistinctKeys(s[1..]);
    if i == 0 {
      assert !HasKey(s[1..], k);
      WithoutAbsent(s[1..], k);
    } else {
      WithoutAt(s[1..], i - 1);
      assert s[..i] == [s[0]] + s[1..][..i - 1] && s[i + 1..] == s[1..][i..];
    }
  }

  lemma {:induction false} LookupAbsent<V>(s: Recency<V>, k: DocId)
    requires !HasKey(s, k)
    ensures Lookup(s, k) == None
  {
    hide HasKey;
    if s != [] {
      TailKey(s, k);
      LookupAbsent(s[1..], k);
    }
  }

  /** A lookup returned `r` and left `s'`: the value and its entry moved to the front, or nil and nothing changed. */
  ghost predicate LookedUp<V>(s: Recency<V>, k: DocId, r: Any<V>, s': Recency<V>) {
    && (forall i :: 0 <= i < |s| && s[i].0 == k ==> r == s[i].1 && s' == [s[i]] + s[..i] + s[i + 1..])
    && ((forall i :: 0 <= i < |s| ==> s[i].0 != k) ==> r == None && s' == s)
  }

  /** A store left `s'`: the key comes first, in place of its own older entry; for a new key a full cache loses its
      last entry. */
  ghost predicate PutFirst<V>(s: Recency<V>, capacity: nat, k: DocId, v: Any<V>, s': Recency<V>) {
    && (forall i :: 0 <= i < |s| && s[i].0 == k ==> s' == [(k, v)] + s[..i] + s[i + 1..])
    && ((forall i :: 0 <= i < |s| ==> s[i].0 != k) ==>
          s' == [(k, v)] + if |s| >= 1 && |s| == capacity then s[..|s| - 1] else s)
  }

  /** Takes the entry at `i` to the front, as `e`. */
  function ToFront<V>(s: Recency<V>, i: nat, e: (DocId, Any<V>)): Recency<V>
    requires i < |s|
  {
    [e] + s[..i] + s[i + 1..]
  }

  lemma FoundAt<V>(s: Recency<V>, i: nat, e: (DocId, Any<V>), capacity: nat)
    requires DistinctKeys(s) && i < |s| && e.0 == s[i].0
    ensures LookedUp(s, e.0, s[i].1, ToFront(s, i, s[i]))
    ensures PutFirst(s, capacity, e.0, e.1, ToFront(s, i, e))
  {
    assert forall j :: 0 <= j < |s| && s[j].0 == e.0 ==> j == i;
  }

  lemma FoundNowhere<V>(s: Recency<V>, k: DocId)
    requires !HasKey(s, k)
    ensures LookedUp(s, k, None, s) && Lookup(s, k) == None && Touched(s, k) == s
  {
    LookupAbsent(s, k);
  }

  lemma PlaceOfKey<V>(s: Recency<V>, k: DocId) returns (i: nat)
    requires HasKey(s, k)
    ensures i < |s| && s[i].0 == k
  {
    i :| 0 <= i < |s| && s[i].0 == k;
  }

  lemma MovedToFront<V>(s: Recency<V>, i: nat, e: (DocId, Any<V>), capacity: nat)
    requires DistinctKeys(s) && i < |s| && e.0 == s[i].0 && |s| <= capacity && capacity >= 1
    ensures Lookup(s, e.0) == s[i].1 && Touched(s, e.0) == ToFront(s, i, s[i])
    ensures Stored(s, capacity, e.0, e.1) == ToFront(s, i, e)
  {
    hide Without, Lookup, DistinctKeys;
    WithoutAt(s, i);
    assert s[i] == (e.0, s[i].1);
  }

  lemma TouchedMoves<V>(s: Recency<V>, k: DocId)
    requires DistinctKeys(s)
    ensures LookedUp(s, k, Lookup(s, k), Touched(s, k))
  {
    hide *;
    if HasKey(s, k) {
      var i := PlaceOfKey(s, k);
      MovedToFront(s, i, s[i], |s|);
      FoundAt(s, i, s[i], |s|);
    } else {
      FoundNowhere(s, k);
    }
  }

  lemma StoredMoves<V>(s: Recency<V>, capacity: nat, k: DocId, v: Any<V>)
    requires capacity >= 1 && DistinctKeys(s) && |s| <= capacity
    ensures PutFirst(s, capacity, k, v, Stored(s, capacity, k, v))
  {
    hide *;
    if HasKey(s, k) {
      var i := PlaceOfKey(s, k);
      MovedToFront(s, i, (k, v), capacity);
      FoundAt(s, i, (k, v), capacity);
    } else {
      PutNew(s, capacity, k, v);
    }
  }

  lemma PutNew<V>(s: Recency<V>, capacity: nat, k: DocId, v: Any<V>)
    requires capacity >= 1 && !HasKey(s, k)
    ensures PutFirst(s, capacity, k, v, Stored(s, capacity, k, v))
  {
    hide Without;
    WithoutAbsent(s, k);
  }

  lemma StoredIn<V>(s: Recency<V>, capacity: nat, k: DocId, v: Any<V>, t: Recency<V>)
    requires capacity >= 1 && t == Without(s, k)
    ensures Stored(s, capacity, k, v) == [(k, v)] + if |t| == capacity then t[..capacity - 1] else t
  {
  }

  // ----- the linked list

  class Node<V> {
    var prev: Node?<V>
    var next: Node?<V>
    const key: DocId
    const value: Any<V>

    constructor (key: DocId, value: Any<V>)
      ensures this.key == key && this.value == value
    {
      this.key, this.value := key, value;
      prev, next := null, null;
    }
  }

  /** The chain is linked up in both directions and no node occurs twice. */
  ghost predicate Linked<V>(chain: seq<Node<V>>)
    reads chain
  {
    && (forall i, j :: 0 <= i < j < |chain| ==> chain[i] != chain[j])
    && (forall i {:trigger chain[i].next} :: 0 <= i < |chain| - 1 ==> chain[i].next == chain[i + 1])
    && (forall i {:trigger chain[i].prev} :: 1 <= i < |chain| ==> chain[i].prev == chain[i - 1])
  }

  /** Takes the node at `k` out of the chain. */
  method Unlink<V>(node: Node<V>, ghost chain: seq<Node<V>>, ghost k: nat)
    requires Linked(chain) && 0 < k < |chain| - 1 && chain[k] == node
    modifies chain
    ensures Linked(chain[..k] + chain[k + 1..])
  {
    assert chain[k].next == chain[k + 1] && chain[k].prev == chain[k - 1];
    node.prev.next := node.next;
    node.next.prev := node.prev;
    ghost var c := chain[..k] + chain[k + 1..];
    assert forall i :: 0 <= i < |c| ==> c[i] == if i < k then chain[i] else chain[i + 1];
  }

  /** Puts a fresh node behind the first one of the chain. */
  method Link<V>(head: Node<V>, node: Node<V>, ghost chain: seq<Node<V>>)
    requires Linked(chain) && |chain| >= 2 && chain[0] == head && node !in chain
    modifies chain, node
    ensures Linked([head, node] + chain[1..])
  {
    assert chain[0].next == chain[1];
    var next := head.next;
    head.next := node;
    node.prev := head;
    next.prev := node;
    node.next := next;
    ghost var c := [head, node] + chain[1..];
    assert forall i :: 0 <= i < |c| ==> c[i] == if i == 0 then head else if i == 1 then node else chain[i - 1];
  }

  function KeysOf<V>(ns: seq<Node<V>>): (ks: seq<DocId>)
    ensures |ks| == |ns| && forall i :: 0 <= i < |ns| ==> ks[i] == ns[i].key
  {
    seq(|ns|, i requires 0 <= i < |ns| => ns[i].key)
  }

  lemma {:induction false} CountDistinct(ks: seq<DocId>)
    requires forall i, j :: 0 <= i < j < |ks| ==> ks[i] != ks[j]
    ensures |set k | k in ks| == |ks|
  {
    if ks != [] {
      CountDistinct(ks[1..]);
      assert ks == [ks[0]] + ks[1..];
      assert (set k | k in ks) == {ks[0]} + set k | k in ks[1..];
    }
  }

  /** The map leads from every key to its node and knows no other keys. */
  ghost predicate Mapped<V>(mp: map<DocId, Node<V>>, nodes: seq<Node<V>>) {
    && (forall n <- nodes :: n.key in mp && mp[n.key] == n)
    && (forall k <- mp :: mp[k] in nodes && mp[k].key == k)
  }

  function EntriesOf<V>(nodes: seq<Node<V>>): (s: Recency<V>)
    ensures |s| == |nodes|
  {
    if nodes == [] then [] else [(nodes[0].key, nodes[0].value)] + EntriesOf(nodes[1..])
  }

  lemma {:induction false} EntryAt<V>(nodes: seq<Node<V>>, i: nat)
    requires i < |nodes|
    ensures EntriesOf(nodes)[i] == (nodes[i].key, nodes[i].value)
  {
    if i > 0 {
      EntryAt(nodes[1..], i - 1);
    }
  }

  /** The list is reflected by the map: keys are distinct and exactly the map's. */
  lemma MappedKeys<V>(mp: map<DocId, Node<V>>, nodes: seq<Node<V>>)
    requires Mapped(mp, nodes) && DistinctNodes(nodes)
    ensures DistinctKeys(EntriesOf(nodes)) && |mp| == |nodes|
    ensures forall k :: k in mp <==> HasKey(EntriesOf(nodes), k)
  {
    hide EntriesOf, Mapped;
    var s, ks := EntriesOf(nodes), KeysOf(nodes);
    forall i | 0 <= i < |nodes|
      ensures s[i].0 == ks[i]
    {
      EntryAt(nodes, i);
    }
    ListedKeys(mp, nodes);
    CountDistinct(ks);
    forall k
      ensures k in mp <==> HasKey(s, k)
    {
      assert k in ks <==> HasKey(s, k);
    }
  }

  lemma ListedKeys<V>(mp: map<DocId, Node<V>>, nodes: seq<Node<V>>)
    requires Mapped(mp, nodes) && DistinctNodes(nodes)
    ensures var ks := KeysOf(nodes);
            && (forall i, j :: 0 <= i < j < |ks| ==> ks[i] != ks[j])
            && mp.Keys == set k | k in ks
  {
    var ks := KeysOf(nodes);
    forall i | 0 <= i < |nodes|
      ensures ks[i] in mp && mp[ks[i]] == nodes[i]
    {
      assert nodes[i] in nodes;
    }
    forall k | k in mp
      ensures k in ks
    {
      var i :| 0 <= i < |nodes| && nodes[i] == mp[k];
      assert ks[i] == k;
    }
  }

  ghost predicate DistinctNodes<V>(nodes: seq<Node<V>>) {
    forall i, j :: 0 <= i < j < |nodes| ==> nodes[i] != nodes[j]
  }

  /** Taking the node at `k` out of the list takes its entry out of the recency sequence. */
  lemma EntriesWithout<V>(nodes: seq<Node<V>>, k: nat)
    requires k < |nodes| && DistinctKeys(EntriesOf(nodes))
    ensures EntriesOf(nodes[..k] + nodes[k + 1..]) == Without(EntriesOf(nodes), nodes[k].key)
    ensures Lookup(EntriesOf(nodes), nodes[k].key) == nodes[k].value
  {
    hide EntriesOf, DistinctKeys;
    var s, rest := EntriesOf(nodes), nodes[..k] + nodes[k + 1..];
    EntryAt(nodes, k);
    WithoutAt(s, k);
    forall i | 0 <= i < |rest|
      ensures EntriesOf(rest)[i] == (s[..k] + s[k + 1..])[i]
    {
      EntryAt(rest, i);
      EntryAt(nodes, if i < k then i else i + 1);
    }
    assert EntriesOf(rest) == s[..k] + s[k + 1..];
  }

  lemma MappedWithout<V>(mp: map<DocId, Node<V>>, nodes: seq<Node<V>>, k: nat)
    requires Mapped(mp, nodes) && k < |nodes| && DistinctNodes(nodes)
    ensures var rest := nodes[..k] + nodes[k + 1..];
            Mapped(mp - {nodes[k].key}, rest) && nodes[k] !in rest
  {
    var n, rest := nodes[k], nodes[..k] + nodes[k + 1..];
    forall m <- rest
      ensures m in nodes && m != n && m.key != n.key
    {
      var i :| 0 <= i < |rest| && rest[i] == m;
      assert m == nodes[if i < k then i else i + 1];
      assert mp[m.key] == m && mp[n.key] == n;
    }
    forall q <- mp - {n.key}
      ensures mp[q] in rest
    {
      var i :| 0 <= i < |nodes| && nodes[i] == mp[q];
      assert i != k && rest[if i < k then i else i - 1] == mp[q];
    }
  }

  lemma MappedWith<V>(mp: map<DocId, Node<V>>, nodes: seq<Node<V>>, n: Node<V>)
    requires Mapped(mp, nodes) && n.key !in mp
    ensures Mapped(mp[n.key := n], [n] + nodes)
  {
    assert ([n] + nodes)[0] == n;
    assert forall m <- nodes :: m in [n] + nodes;
  }

  class LRUCache<V> {
    var mp: map<DocId, Node<V>>
    const head: Node<V>
    const tail: Node<V>
    const capacity: nat
    /** The nodes between the sentinels, from the head. */
    ghost var nodes: seq<Node<V>>

    ghost function Chain(): seq<Node<V>>
      reads this
    {
      [head] + nodes + [tail]
    }

    ghost function Repr(): set<object>
      reads this
    {
      set n | n in Chain()
    }

    ghost predicate Consistent()
      reads this, Repr()
    {
      Linked(Chain()) && Mapped(mp, nodes)
    }

    ghost predicate Valid()
      reads this, Repr()
    {
      Consistent() && 1 <= capacity && |nodes| <= capacity
    }

    ghost function Entries(): Recency<V>
      reads this
    {
      EntriesOf(nodes)
    }

    constructor (cap: nat, zero: DocId)
      requires cap >= 1
      ensures Valid() && capacity == cap
      ensures Entries() == [] && fresh(Repr())
    {
      var h := new Node<V>(zero, None);
      var t := new Node<V>(zero, None);
      h.next := t;
      t.prev := h;
      mp, head, tail, capacity := map[], h, t, cap;
      nodes := [];
    }

    lemma Reflected()
      requires Consistent()
      ensures DistinctNodes(nodes) && DistinctKeys(Entries()) && |mp| == |nodes|
      ensures forall k :: k in mp <==> HasKey(Entries(), k)
    {
      hide Mapped, EntriesOf, HasKey, DistinctKeys;
      assert forall i :: 0 <= i < |nodes| ==> nodes[i] == Chain()[i + 1];
      MappedKeys(mp, nodes);
    }

    lemma InMap(k: nat)
      requires Consistent() && k < |nodes|
      ensures nodes[k].key in mp && mp[nodes[k].key] == nodes[k] && nodes[k] != head && nodes[k] != tail
    {
      assert Chain()[k + 1] == nodes[k] && Chain()[0] == head && Chain()[|nodes| + 1] == tail;
      assert nodes[k] in nodes;
    }

    lemma ChainWithout(k: nat)
      requires k < |nodes|
      ensures Chain()[k + 1] == nodes[k]
      ensures Chain()[..k + 1] + Chain()[k + 2..] == [head] + (nodes[..k] + nodes[k + 1..]) + [tail]
    {
    }

    /** Drops a node from the map and from the list. */
    method Remove(node: Node<V>, ghost k: nat)
      requires Consistent() && k < |nodes| && nodes[k] == node
      modifies this`mp, this`nodes, Repr()
      ensures Consistent()
      ensures nodes == old(nodes[..k] + nodes[k + 1..])
      ensures node !in Chain() && mp == old(mp) - {node.key}
      ensures Repr() <= old(Repr())
      ensures Entries() == Without(old(Entries()), node.key)
      ensures node.value == Lookup(old(Entries()), node.key)
    {
      hide Linked, Mapped, EntriesOf, Without, Lookup, DistinctKeys, HasKey;
      Reflected();
      MappedWithout(mp, nodes, k);
      EntriesWithout(nodes, k);
      InMap(k);
      ChainWithout(k);
      mp := mp - {node.key};
      Unlink(node, Chain(), k + 1);
      nodes := nodes[..k] + nodes[k + 1..];
    }

    /** Enters a node into the map and right behind the head. */
    method Insert(node: Node<V>)
      requires Consistent() && node !in Chain() && node.key !in mp
      modifies this`mp, this`nodes, Repr(), node
      ensures Consistent()
      ensures nodes == [node] + old(nodes)
      ensures Entries() == [(node.key, node.value)] + old(Entries())
    {
      hide Linked, Mapped;
      ghost var c := Chain();
      assert [head, node] + c[1..] == [head] + ([node] + nodes) + [tail];
      MappedWith(mp, nodes, node);
      assert ([node] + nodes)[1..] == nodes;
      mp := mp[node.key := node];
      Link(head, node, c);
      nodes := [node] + nodes;
    }

    /** Returns the value and makes the key the most recent; nil for an absent key. */
    method Get(key: DocId) returns (r: Any<V>)
      requires Valid()
      modifies this`mp, this`nodes, Repr()
      ensures Valid() && Repr() <= old(Repr())
      ensures LookedUp(old(Entries()), key, r, Entries())
      ensures r == Lookup(old(Entries()), key) && Entries() == Touched(old(Entries()), key)
    {
      hide Linked, EntriesOf, Without, Lookup, DistinctKeys, HasKey, LookedUp;
      Reflected();
      TouchedMoves(Entries(), key);
      if key in mp {
        var v := mp[key];
        ghost var k :| 0 <= k < |nodes| && nodes[k] == v;
        Remove(v, k);
        Insert(v);
        return v.value;
      }
      LookupAbsent(Entries(), key);
      return None;
    }

    lemma LastNode()
      requires Consistent() && nodes != []
      ensures tail.prev == nodes[|nodes| - 1]
    {
      assert Chain()[|nodes| + 1].prev == Chain()[|nodes|];
    }

    /** Makes room: the node before the tail holds the least recent entry. */
    method Evict()
      requires Consistent() && nodes != []
      modifies this`mp, this`nodes, Repr()
      ensures Consistent() && |nodes| == old(|nodes|) - 1 && mp.Keys <= old(mp.Keys)
      ensures Repr() <= old(Repr())
      ensures Entries() == old(Entries())[..|old(nodes)| - 1]
    {
      hide Linked, Mapped, EntriesOf, Without, Lookup, HasKey;
      Reflected();
      LastNode();
      ghost var last := |nodes| - 1;
      EntryAt(nodes, last);
      WithoutAt(Entries(), last);
      Remove(tail.prev, last);
    }

    /** Takes the entry of a key out, if there is one. */
    method Drop(key: DocId)
      requires Consistent()
      modifies this`mp, this`nodes, Repr()
      ensures Consistent() && |nodes| <= old(|nodes|) && key !in mp
      ensures Repr() <= old(Repr())
      ensures Entries() == Without(old(Entries()), key)
    {
      hide Linked, EntriesOf, Without, Lookup, DistinctKeys, HasKey;
      Reflected();
      if key in mp {
        ghost var k :| 0 <= k < |nodes| && nodes[k] == mp[key];
        Remove(mp[key], k);
      } else {
        WithoutAbsent(Entries(), key);
      }
    }

    /** A full cache loses its least recent entry. */
    method MakeRoom()
      requires Consistent() && |nodes| <= capacity && capacity >= 1
      modifies this`mp, this`nodes, Repr()
      ensures Consistent() && |nodes| < capacity && mp.Keys <= old(mp.Keys)
      ensures Repr() <= old(Repr())
      ensures Entries() == if |old(Entries())| == capacity then old(Entries())[..capacity - 1] else old(Entries())
    {
      hide Linked, Mapped, EntriesOf, DistinctKeys, HasKey;
      Reflected();
      if |mp| == capacity {
        Evict();
      }
    }

    lemma KeyComesFirst(key: DocId, value: Any<V>)
      requires Valid()
      ensures PutFirst(Entries(), capacity, key, value, Stored(Entries(), capacity, key, value))
    {
      hide Linked, Mapped, PutFirst, Stored, DistinctKeys, HasKey;
      Reflected();
      StoredMoves(Entries(), capacity, key, value);
    }

    /** Makes the key the most recent with the given value; a full cache loses its least recent entry. */
    method Put(key: DocId, value: Any<V>)
      requires Valid()
      modifies this`mp, this`nodes, Repr()
      ensures Valid() && fresh(Repr() - old(Repr()))
      ensures PutFirst(old(Entries()), capacity, key, value, Entries())
      ensures Entries() == Stored(old(Entries()), capacity, key, value)
    {
      hide Linked, Mapped, EntriesOf, Without, Lookup, DistinctKeys, HasKey, PutFirst, Stored;
      KeyComesFirst(key, value);
      ghost var s := Entries();
      Drop(key);
      StoredIn(s, capacity, key, value, Entries());
      MakeRoom();
      var node := new Node(key, value);
      Insert(node);
    }
  }
}
