/** Whole runs of the cache: how caches of different capacities compare on the same trace. */
module CacheTraces {
  import opened EditDistance
  import opened Keys
  import opened LruCache

  datatype Op<V> = Get(key: DocId) | Put(key: DocId, value: Any<V>)

  function Step<V>(s: Recency<V>, capacity: nat, op: Op<V>): Recency<V>
    requires capacity >= 1
  {
    match op
    case Get(k) => Touched(s, k)
    case Put(k, v) => Stored(s, capacity, k, v)
  }

  /** The cache after a trace, starting empty. */
  function Run<V>(capacity: nat, ops: seq<Op<V>>): Recency<V>
    requires capacity >= 1
  {
    if ops == [] then [] else Step(Run(capacity, ops[..|ops| - 1]), capacity, ops[|ops| - 1])
  }

  /** `a` arises from `b` by leaving entries out. */
  predicate Subsequence<V(==)>(a: Recency<V>, b: Recency<V>) {
    if a == [] then true
    else if b == [] then false
    else if a[0] == b[0] then Subsequence(a[1..], b[1..])
    else Subsequence(a, b[1..])
  }

  lemma {:induction false} SubsequenceLength<V>(a: Recency<V>, b: Recency<V>)
    requires Subsequence(a, b)
    ensures |a| <= |b|
    decreases |b|
  {
    if a != [] {
      if a[0] == b[0] { SubsequenceLength(a[1..], b[1..]); } else { SubsequenceLength(a, b[1..]); }
    }
  }

  /** Fewer entries on the left is still a subsequence. */
  lemma {:induction false} DropLeft<V>(a: Recency<V>, b: Recency<V>)
    requires Subsequence(a, b) && a != []
    ensures Subsequence(a[..|a| - 1], b)
    decreases |b|
  {
    if |a| > 1 {
      if a[0] == b[0] {
        DropLeft(a[1..], b[1..]);
        assert a[..|a| - 1][1..] == a[1..][..|a| - 2];
      } else {
        DropLeft(a, b[1..]);
      }
    }
  }

  lemma {:induction false} DropBoth<V>(a: Recency<V>, b: Recency<V>)
    requires Subsequence(a, b) && a != [] && b != []
    ensures Subsequence(a[..|a| - 1], b[..|b| - 1])
    decreases |b|
  {
    var a', b' := a[..|a| - 1], b[..|b| - 1];
    if |a| > 1 {
      SubsequenceLength(a, b);
      assert b'[0] == b[0] && a'[0] == a[0] && b'[1..] == b[1..][..|b| - 2];
      if a[0] == b[0] {
        DropBoth(a[1..], b[1..]);
        assert a'[1..] == a[1..][..|a| - 2];
      } else {
        DropBoth(a, b[1..]);
      }
    }
  }

  lemma {:induction false} WithoutBoth<V>(a: Recency<V>, b: Recency<V>, k: DocId)
    requires Subsequence(a, b)
    ensures Subsequence(Without(a, k), Without(b, k))
    decreases |b|
  {
    if a != [] {
      if a[0] == b[0] {
        WithoutBoth(a[1..], b[1..], k);
        if a[0].0 != k {
          assert Without(a, k)[1..] == Without(a[1..], k) && Without(b, k)[1..] == Without(b[1..], k);
        }
      } else {
        WithoutBoth(a, b[1..], k);
        if b[0].0 != k {
          SkipOne(Without(a, k), b[0], Without(b[1..], k));
        }
      }
    }
  }

  lemma {:induction false} SkipOne<V>(a: Recency<V>, e: (DocId, Any<V>), b: Recency<V>)
    requires Subsequence(a, b)
    ensures Subsequence(a, [e] + b)
    decreases |b|, 1
  {
    assert ([e] + b)[1..] == b;
    if a != [] && a[0] == e {
      // Either b offers its own first entry, or a was matched further on.
      TailOf(a, b);
    }
  }

  lemma {:induction false} TailOf<V>(a: Recency<V>, b: Recency<V>)
    requires Subsequence(a, b) && a != []
    ensures Subsequence(a[1..], b)
    decreases |b|, 0
  {
    if a[0] == b[0] {
      SkipOne(a[1..], b[0], b[1..]);
      assert [b[0]] + b[1..] == b;
    } else {
      TailOf(a, b[1..]);
      SkipOne(a[1..], b[0], b[1..]);
      assert [b[0]] + b[1..] == b;
    }
  }

  lemma {:induction false} SameValue<V>(a: Recency<V>, b: Recency<V>, k: DocId)
    requires Subsequence(a, b) && DistinctKeys(b) && HasKey(a, k)
    ensures HasKey(b, k) && Lookup(b, k) == Lookup(a, k)
    decreases |b|
  {
    assert DistinctKeys(b[1..]);
    assert forall i :: 0 <= i < |b| - 1 ==> b[1..][i] == b[i + 1];
    assert forall i :: 0 <= i < |a| - 1 ==> a[1..][i] == a[i + 1];
    if a[0] == b[0] {
      if a[0].0 != k {
        assert HasKey(a[1..], k);
        SameValue(a[1..], b[1..], k);
      }
    } else {
      SameValue(a, b[1..], k);
      assert b[0].0 != k;
    }
  }

  lemma {:induction false} WithoutDistinct<V>(s: Recency<V>, k: DocId)
    requires DistinctKeys(s)
    ensures DistinctKeys(Without(s, k)) && !HasKey(Without(s, k), k)
    ensures forall k' :: HasKey(Without(s, k), k') ==> HasKey(s, k')
    ensures |Without(s, k)| <= |s|
    ensures HasKey(s, k) ==> |Without(s, k)| == |s| - 1
  {
    hide HasKey, DistinctKeys;
    if s == [] {
      NoKeys<V>();
    } else {
      var first, rest := s[0], s[1..];
      assert s == [first] + rest;
      TailDistinct(first, rest);
      WithoutDistinct(rest, k);
      KeysCons(first, rest);
      if first.0 == k {
        WithoutAbsent(rest, k);
      } else {
        ConsDistinct(first, Without(rest, k));
        KeysCons(first, Without(rest, k));
      }
    }
  }

  lemma NoKeys<V>()
    ensures DistinctKeys<V>([]) && forall k :: !HasKey<V>([], k)
  {
  }

  lemma TailDistinct<V>(e: (DocId, Any<V>), t: Recency<V>)
    requires DistinctKeys([e] + t)
    ensures DistinctKeys(t) && !HasKey(t, e.0)
  {
    var s := [e] + t;
    forall j | 0 <= j < |t|
      ensures t[j].0 != e.0
    {
      assert s[0] == e && s[j + 1] == t[j];
    }
    forall i, j | 0 <= i < j < |t|
      ensures t[i].0 != t[j].0
    {
      assert s[i + 1] == t[i] && s[j + 1] == t[j];
    }
  }

  lemma ConsDistinct<V>(e: (DocId, Any<V>), t: Recency<V>)
    requires DistinctKeys(t) && !HasKey(t, e.0)
    ensures DistinctKeys([e] + t)
  {
    var s := [e] + t;
    forall i, j | 0 <= i < j < |s|
      ensures s[i].0 != s[j].0
    {
      assert s[j] == t[j - 1] && s[i] == if i == 0 then e else t[i - 1];
    }
  }

  lemma KeysCons<V>(e: (DocId, Any<V>), t: Recency<V>)
    ensures forall k :: HasKey([e] + t, k) <==> e.0 == k || HasKey(t, k)
  {
    var s := [e] + t;
    forall k
      ensures HasKey(s, k) <==> e.0 == k || HasKey(t, k)
    {
      if i :| 0 <= i < |t| && t[i].0 == k {
        assert s[i + 1].0 == k;
      }
      if e.0 == k {
        assert s[0].0 == k;
      }
    }
  }

  /** Every reachable cache has distinct keys and respects its capacity. */
  lemma {:induction false} RunIsBounded<V>(capacity: nat, ops: seq<Op<V>>)
    requires capacity >= 1
    ensures DistinctKeys(Run(capacity, ops)) && |Run(capacity, ops)| <= capacity
  {
    if ops != [] {
      var before := ops[..|ops| - 1];
      RunIsBounded(capacity, before);
      StepIsBounded(Run(capacity, before), capacity, ops[|ops| - 1]);
    }
  }

  lemma StepIsBounded<V>(s: Recency<V>, capacity: nat, op: Op<V>)
    requires capacity >= 1 && DistinctKeys(s) && |s| <= capacity
    ensures DistinctKeys(Step(s, capacity, op)) && |Step(s, capacity, op)| <= capacity
  {
    hide Without, HasKey, DistinctKeys, Lookup;
    WithoutDistinct(s, op.key);
    var t := Without(s, op.key);
    match op
    case Get(k) =>
      FirstIsNew((k, Lookup(s, k)), t, |t|);
      assert t[..|t|] == t;
    case Put(k, v) =>
      FirstIsNew((k, v), t, if |t| == capacity then capacity - 1 else |t|);
      assert t[..|t|] == t;
  }

  /** An entry with a new key in front of the first `n` entries. */
  lemma FirstIsNew<V>(e: (DocId, Any<V>), t: Recency<V>, n: nat)
    requires DistinctKeys(t) && !HasKey(t, e.0) && n <= |t|
    ensures DistinctKeys([e] + t[..n])
  {
    assert forall i :: 0 <= i < n ==> t[..n][i] == t[i];
    ConsDistinct(e, t[..n]);
  }

  /** The relation a smaller cache keeps to a larger one: a subsequence, and as long as the smaller
      one has never been full the two are the same. */
  ghost predicate Included<V>(a: Recency<V>, c: nat, b: Recency<V>) {
    Subsequence(a, b) && (|a| == c || a == b)
  }

  lemma GetKeepsIncluded<V>(a: Recency<V>, c: nat, b: Recency<V>, k: DocId)
    requires DistinctKeys(a) && DistinctKeys(b) && Included(a, c, b)
    ensures Included(Touched(a, k), c, Touched(b, k))
  {
    WithoutBoth(a, b, k);
    WithoutDistinct(a, k);
    if HasKey(a, k) {
      SameValue(a, b, k);
    } else {
      WithoutAbsent(a, k);
      if HasKey(b, k) {
        SkipOne(a, (k, Lookup(b, k)), Without(b, k));
      }
    }
  }

  lemma PutKeepsIncluded<V>(a: Recency<V>, c: nat, b: Recency<V>, d: nat, k: DocId, v: Any<V>)
    requires 1 <= c <= d && |a| <= c && |b| <= d
    requires DistinctKeys(a) && DistinctKeys(b) && Included(a, c, b)
    ensures Included(Stored(a, c, k, v), c, Stored(b, d, k, v))
  {
    var s, t := Without(a, k), Without(b, k);
    WithoutBoth(a, b, k);
    WithoutDistinct(a, k);
    WithoutDistinct(b, k);
    if HasKey(a, k) {
      SameValue(a, b, k);
    } else {
      WithoutAbsent(a, k);
    }
    if |s| == c {
      DropLeft(s, t);
      DropBoth(s, t);
    }
  }

  /** Inclusion: on every trace, a smaller cache holds a subsequence of a larger one. */
  lemma {:induction false} SmallerIsIncluded<V>(c: nat, d: nat, ops: seq<Op<V>>)
    requires 1 <= c <= d
    ensures Included(Run(c, ops), c, Run(d, ops))
  {
    if ops != [] {
      var before, op := ops[..|ops| - 1], ops[|ops| - 1];
      SmallerIsIncluded(c, d, before);
      RunIsBounded(c, before);
      RunIsBounded(d, before);
      match op {
        case Get(k) => GetKeepsIncluded(Run(c, before), c, Run(d, before), k);
        case Put(k, v) => PutKeepsIncluded(Run(c, before), c, Run(d, before), d, k, v);
      }
    }
  }

  /** Every hit of the smaller cache is a hit of the larger one, with the same value. */
  lemma HitsAreKept<V>(c: nat, d: nat, ops: seq<Op<V>>, k: DocId)
    requires 1 <= c <= d && HasKey(Run(c, ops), k)
    ensures HasKey(Run(d, ops), k) && Lookup(Run(d, ops), k) == Lookup(Run(c, ops), k)
  {
    SmallerIsIncluded(c, d, ops);
    RunIsBounded(d, ops);
    SameValue(Run(c, ops), Run(d, ops), k);
  }

  /** Overwriting a key evicts nothing: every other entry is still there, in the same order. */
  lemma OverwriteEvictsNothing<V>(s: Recency<V>, capacity: nat, k: DocId, v: Any<V>)
    requires capacity >= 1 && DistinctKeys(s) && |s| <= capacity && HasKey(s, k)
    ensures Stored(s, capacity, k, v)[1..] == Without(s, k) && |Stored(s, capacity, k, v)| == |s|
  {
    WithoutDistinct(s, k);
  }

  /** Storing a new key evicts only from a full cache, and then only the least recently used entry. */
  lemma EvictsLeastRecent<V>(s: Recency<V>, capacity: nat, k: DocId, v: Any<V>)
    requires capacity >= 1 && |s| <= capacity && !HasKey(s, k)
    ensures Stored(s, capacity, k, v) == [(k, v)] + if |s| < capacity then s else s[..|s| - 1]
  {
    WithoutAbsent(s, k);
  }

  // ----- how long a key stays

  /** An operation on `q` takes its entry to the front, or puts a new one there in a cache of this capacity, or is a
      lookup of an absent key and changes nothing. */
  ghost predicate Moves<V>(s: Recency<V>, capacity: nat, q: DocId, s': Recency<V>)
    requires capacity >= 1
  {
    || (s' == s && !HasKey(s, q))
    || (s' != [] && s'[0].0 == q && exists j :: 0 <= j < |s| && s[j].0 == q && s'[1..] == s[..j] + s[j + 1..])
    || (s' != [] && s'[0].0 == q && !HasKey(s, q) && s'[1..] == s[..Min(|s|, capacity - 1)])
  }

  lemma TakenToFront<V>(s: Recency<V>, capacity: nat, j: nat, e: (DocId, Any<V>))
    requires capacity >= 1 && j < |s| && e.0 == s[j].0
    ensures Moves(s, capacity, e.0, [e] + s[..j] + s[j + 1..])
  {
    var s' := [e] + s[..j] + s[j + 1..];
    assert s'[1..] == s[..j] + s[j + 1..] && s'[0] == e;
  }

  lemma PutInFront<V>(s: Recency<V>, capacity: nat, e: (DocId, Any<V>))
    requires capacity >= 1 && !HasKey(s, e.0)
    ensures Moves(s, capacity, e.0, [e] + s[..Min(|s|, capacity - 1)])
  {
    var s' := [e] + s[..Min(|s|, capacity - 1)];
    assert s'[1..] == s[..Min(|s|, capacity - 1)] && s'[0] == e;
  }

  lemma LookedUpMoves<V>(s: Recency<V>, capacity: nat, k: DocId, r: Any<V>, s': Recency<V>)
    requires capacity >= 1 && LookedUp(s, k, r, s')
    ensures Moves(s, capacity, k, s')
  {
    hide Moves;
    if i :| 0 <= i < |s| && s[i].0 == k {
      TakenToFront(s, capacity, i, s[i]);
    } else {
      NothingMoves(s, capacity, k);
    }
  }

  lemma NothingMoves<V>(s: Recency<V>, capacity: nat, k: DocId)
    requires capacity >= 1 && !HasKey(s, k)
    ensures Moves(s, capacity, k, s)
  {
  }

  lemma PutFirstMoves<V>(s: Recency<V>, capacity: nat, k: DocId, v: Any<V>, s': Recency<V>)
    requires capacity >= 1 && |s| <= capacity && PutFirst(s, capacity, k, v, s')
    ensures Moves(s, capacity, k, s') && s' != [] && s'[0].0 == k
  {
    hide Moves;
    if i :| 0 <= i < |s| && s[i].0 == k {
      TakenToFront(s, capacity, i, (k, v));
    } else {
      assert s[..|s|] == s;
      PutInFront(s, capacity, (k, v));
    }
  }

  lemma StepMoves<V>(s: Recency<V>, capacity: nat, op: Op<V>)
    requires capacity >= 1 && DistinctKeys(s) && |s| <= capacity
    ensures Moves(s, capacity, op.key, Step(s, capacity, op))
    ensures op.Put? ==> Step(s, capacity, op) != [] && Step(s, capacity, op)[0].0 == op.key
  {
    hide Touched, Stored, Lookup, LookedUp, PutFirst, Moves, DistinctKeys;
    match op
    case Get(k) =>
      TouchedMoves(s, k);
      LookedUpMoves(s, capacity, k, Lookup(s, k), Touched(s, k));
    case Put(k, v) =>
      StoredMoves(s, capacity, k, v);
      PutFirstMoves(s, capacity, k, v, Stored(s, capacity, k, v));
  }

  /** The key is in the cache, with this value, and only keys of `used` come before it. */
  ghost predicate Recent<V>(s: Recency<V>, k: DocId, v: Any<V>, used: set<DocId>) {
    exists i :: 0 <= i < |s| && s[i] == (k, v) && forall j :: 0 <= j < i ==> s[j].0 in used
  }

  lemma {:induction false} PlaceBounded<V>(s: Recency<V>, i: nat, used: set<DocId>)
    requires DistinctKeys(s) && i <= |s| && forall j :: 0 <= j < i ==> s[j].0 in used
    ensures i <= |used|
  {
    if i > 0 {
      PlaceBounded(s, i - 1, used - {s[i - 1].0});
    }
  }

  lemma ShiftedRecent<V>(s: Recency<V>, i: nat, n: nat, s': Recency<V>, k: DocId, v: Any<V>, used: set<DocId>)
    requires i < n <= |s| && s[i] == (k, v) && forall j :: 0 <= j < i ==> s[j].0 in used
    requires s' != [] && s'[1..] == s[..n]
    ensures Recent(s', k, v, used + {s'[0].0})
  {
    assert forall j :: 1 <= j <= n ==> s'[j] == s[j - 1];
    assert s'[i + 1] == (k, v);
  }

  lemma TakenFromRecent<V>(s: Recency<V>, i: nat, j: nat, s': Recency<V>, k: DocId, v: Any<V>, used: set<DocId>)
    requires i < |s| && j < |s| && i != j && s[i] == (k, v) && forall l :: 0 <= l < i ==> s[l].0 in used
    requires s' != [] && s'[1..] == s[..j] + s[j + 1..]
    ensures Recent(s', k, v, used + {s'[0].0})
  {
    assert forall l :: 1 <= l <= j ==> s'[l] == s[l - 1];
    assert forall l :: j < l < |s| ==> s'[l] == s[l];
    assert s'[if j < i then i else i + 1] == (k, v);
  }

  /** An operation on another key. */
  lemma OtherUse<V>(s: Recency<V>, capacity: nat, q: DocId, s': Recency<V>, k: DocId, v: Any<V>, used: set<DocId>)
    requires capacity >= 1 && DistinctKeys(s) && Moves(s, capacity, q, s') && q != k
    requires Recent(s, k, v, used) && |used + {q}| < capacity
    ensures Recent(s', k, v, used + {q})
  {
    hide Recent, DistinctKeys;
    var i := PlaceOf(s, k, v, used);
    if s' == s && !HasKey(s, q) {
      RecentAt(s, i, k, v, used + {q});
    } else if j :| 0 <= j < |s| && s[j].0 == q && s'[1..] == s[..j] + s[j + 1..] {
      TakenFromRecent(s, i, j, s', k, v, used);
    } else {
      PlaceBounded(s, i, used - {q});
      assert used + {q} == used - {q} + {q};
      ShiftedRecent(s, i, Min(|s|, capacity - 1), s', k, v, used);
    }
  }

  lemma PlaceOf<V>(s: Recency<V>, k: DocId, v: Any<V>, used: set<DocId>) returns (i: nat)
    requires Recent(s, k, v, used)
    ensures i < |s| && s[i] == (k, v) && forall j :: 0 <= j < i ==> s[j].0 in used
  {
    i :| 0 <= i < |s| && s[i] == (k, v) && forall j :: 0 <= j < i ==> s[j].0 in used;
  }

  lemma RecentAt<V>(s: Recency<V>, i: nat, k: DocId, v: Any<V>, used: set<DocId>)
    requires i < |s| && s[i] == (k, v) && forall j :: 0 <= j < i ==> s[j].0 in used
    ensures Recent(s, k, v, used)
  {
  }

  /** An operation that leaves the key in the cache leaves it first. */
  lemma OwnUse<V>(s: Recency<V>, capacity: nat, op: Op<V>) returns (v: Any<V>)
    requires capacity >= 1 && DistinctKeys(s) && |s| <= capacity && HasKey(Step(s, capacity, op), op.key)
    ensures Recent(Step(s, capacity, op), op.key, v, {})
    ensures op.Get? ==> forall i :: 0 <= i < |s| && s[i].0 == op.key ==> v == s[i].1
  {
    hide Touched, Stored, Lookup;
    if op.Get? {
      TouchedMoves(s, op.key);
      var i :| 0 <= i < |s| && s[i].0 == op.key;
      v := s[i].1;
    } else {
      StoredMoves(s, capacity, op.key, op.value);
      v := op.value;
    }
    assert Step(s, capacity, op)[0] == (op.key, v);
  }

  /** The other keys that these operations use. */
  ghost function Others<V(!new)>(ops: seq<Op<V>>, k: DocId): set<DocId> {
    set op | op in ops && op.key != k :: op.key
  }

  /** The keys that these operations store. */
  ghost function Stores<V(!new)>(ops: seq<Op<V>>): set<DocId> {
    set op | op in ops && op.Put? :: op.key
  }

  ghost predicate NotStored<V>(ops: seq<Op<V>>, k: DocId) {
    forall op <- ops :: op.Put? ==> op.key != k
  }

  lemma {:induction false} StaysAfterUse<V(!new)>(capacity: nat, ops: seq<Op<V>>, k: DocId, v: Any<V>,
                                                  more: seq<Op<V>>) returns (v': Any<V>)
    requires capacity >= 1 && Recent(Run(capacity, ops), k, v, {}) && |Others(more, k)| < capacity
    ensures Recent(Run(capacity, ops + more), k, v', Others(more, k))
    ensures NotStored(more, k) ==> v' == v
    decreases |more|
  {
    if more == [] {
      assert ops + more == ops;
      v' := v;
    } else {
      hide Recent, Step, DistinctKeys, Moves;
      var front, op := more[..|more| - 1], more[|more| - 1];
      assert more == front + [op] && ops + more == (ops + front) + [op];
      assert (ops + more)[..|ops + front|] == ops + front;
      var s := Run(capacity, ops + front);
      OthersGrow(front, op, k);
      v' := StaysAfterUse(capacity, ops, k, v, front);
      RunIsBounded(capacity, ops + front);
      if op.key != k {
        StepMoves(s, capacity, op);
        OtherUse(s, capacity, op.key, Step(s, capacity, op), k, v', Others(front, k));
      } else {
        v' := FirstAgain(s, capacity, op, v', Others(front, k), Others(more, k));
      }
    }
  }

  lemma OthersGrow<V(!new)>(front: seq<Op<V>>, op: Op<V>, k: DocId)
    ensures Others(front + [op], k) == if op.key != k then Others(front, k) + {op.key} else Others(front, k)
    ensures |Others(front, k)| <= |Others(front + [op], k)|
  {
    assert forall o :: o in front + [op] <==> o in front || o == op;
    var a, b := Others(front, k), Others(front + [op], k);
    assert b == a + (b - a);
  }

  lemma FirstAgain<V>(s: Recency<V>, capacity: nat, op: Op<V>, v: Any<V>, used: set<DocId>, more: set<DocId>)
    returns (v': Any<V>)
    requires capacity >= 1 && DistinctKeys(s) && |s| <= capacity && Recent(s, op.key, v, used)
    ensures Recent(Step(s, capacity, op), op.key, v', more)
    ensures op.Get? ==> v' == v
  {
    hide Step, Recent, DistinctKeys;
    var i := PlaceOf(s, op.key, v, used);
    StaysUsed(s, capacity, op, i);
    v' := OwnUse(s, capacity, op);
    var i' := PlaceOf(Step(s, capacity, op), op.key, v', {});
    RecentAt(Step(s, capacity, op), i', op.key, v', more);
  }

  lemma StaysUsed<V>(s: Recency<V>, capacity: nat, op: Op<V>, i: nat)
    requires capacity >= 1 && DistinctKeys(s) && |s| <= capacity && i < |s| && s[i].0 == op.key
    ensures HasKey(Step(s, capacity, op), op.key)
  {
    hide Lookup, Touched, Stored, DistinctKeys;
    match op {
      case Get(k) => TouchedMoves(s, k);
      case Put(k, v) => StoredMoves(s, capacity, k, v);
    }
    assert Step(s, capacity, op)[0].0 == op.key;
  }

  /** A key just used is still there, with its value unless it was stored anew, after operations on fewer other keys
      than the capacity. */
  lemma UsedKeyStays<V(!new)>(capacity: nat, ops: seq<Op<V>>, op: Op<V>, more: seq<Op<V>>)
    requires capacity >= 1 && HasKey(Run(capacity, ops + [op]), op.key) && |Others(more, op.key)| < capacity
    ensures HasKey(Run(capacity, ops + [op] + more), op.key)
    ensures NotStored(more, op.key) ==>
              Lookup(Run(capacity, ops + [op] + more), op.key) == Lookup(Run(capacity, ops + [op]), op.key)
  {
    hide Step, Lookup, DistinctKeys;
    var used := ops + [op];
    assert used[..|used| - 1] == ops;
    RunIsBounded(capacity, ops);
    RunIsBounded(capacity, used);
    RunIsBounded(capacity, used + more);
    var v := OwnUse(Run(capacity, ops), capacity, op);
    var v' := StaysAfterUse(capacity, used, op.key, v, more);
    RecentValue(Run(capacity, used), op.key, v, {});
    RecentValue(Run(capacity, used + more), op.key, v', Others(more, op.key));
  }

  lemma RecentValue<V>(s: Recency<V>, k: DocId, v: Any<V>, used: set<DocId>)
    requires DistinctKeys(s) && Recent(s, k, v, used)
    ensures HasKey(s, k) && Lookup(s, k) == v
  {
    var i :| 0 <= i < |s| && s[i] == (k, v) && forall j :: 0 <= j < i ==> s[j].0 in used;
    WithoutAt(s, i);
  }

  ghost predicate Before<V>(s: Recency<V>, i: nat, q: DocId)
    requires i <= |s|
  {
    exists j :: 0 <= j < i && s[j].0 == q
  }

  /** Wherever the key is, all keys of `stored` come before it. */
  ghost predicate Overtaken<V>(s: Recency<V>, k: DocId, stored: set<DocId>) {
    forall i, q :: 0 <= i < |s| && s[i].0 == k && q in stored ==> Before(s, i, q)
  }

  lemma StaysOvertaken<V>(s: Recency<V>, capacity: nat, q: DocId, s': Recency<V>, k: DocId, stored: set<DocId>)
    requires capacity >= 1 && Moves(s, capacity, q, s') && q != k && Overtaken(s, k, stored)
    ensures Overtaken(s', k, stored)
    ensures s' != s ==> Overtaken(s', k, stored + {q})
  {
    if s' != s {
      forall i, p | 0 <= i < |s'| && s'[i].0 == k && p in stored + {q}
        ensures Before(s', i, p)
      {
        if p == q {
          assert s'[0].0 == q;
        } else if j :| 0 <= j < |s| && s[j].0 == q && s'[1..] == s[..j] + s[j + 1..] {
          var i0 := if i <= j then i - 1 else i;
          assert s[i0] == s'[i] && Before(s, i0, p);
          var l :| 0 <= l < i0 && s[l].0 == p;
          assert s'[if l < j then l + 1 else l] == s[l];
        } else {
          assert s[i - 1] == s'[i] && Before(s, i - 1, p);
          var l :| 0 <= l < i - 1 && s[l].0 == p;
          assert s'[l + 1] == s[l];
        }
      }
    }
  }

  lemma PutOvertakes<V>(s: Recency<V>, q: DocId, k: DocId, stored: set<DocId>)
    requires s != [] && s[0].0 == q && q != k && Overtaken(s, k, stored)
    ensures Overtaken(s, k, stored + {q})
  {
    forall i | 0 <= i < |s| && s[i].0 == k
      ensures Before(s, i, q)
    {
      assert s[0].0 == q;
    }
  }

  lemma StoresGrow<V(!new)>(front: seq<Op<V>>, op: Op<V>)
    ensures Stores(front + [op]) == if op.Put? then Stores(front) + {op.key} else Stores(front)
  {
    assert forall o :: o in front + [op] <==> o in front || o == op;
  }

  lemma {:induction false} StoresOvertake<V(!new)>(capacity: nat, ops: seq<Op<V>>, k: DocId, more: seq<Op<V>>)
    requires capacity >= 1 && forall op <- more :: op.key != k
    ensures Overtaken(Run(capacity, ops + more), k, Stores(more))
    decreases |more|
  {
    if more != [] {
      hide Step, DistinctKeys, Moves, Overtaken;
      var front, op := more[..|more| - 1], more[|more| - 1];
      assert more == front + [op] && ops + more == (ops + front) + [op];
      assert (ops + more)[..|ops + front|] == ops + front;
      var s := Run(capacity, ops + front);
      assert forall o <- front :: o in more;
      StoresOvertake(capacity, ops, k, front);
      RunIsBounded(capacity, ops + front);
      StepMoves(s, capacity, op);
      assert op in more;
      StaysOvertaken(s, capacity, op.key, Step(s, capacity, op), k, Stores(front));
      StoresGrow(front, op);
      if op.Put? {
        PutOvertakes(Step(s, capacity, op), op.key, k, Stores(front));
      }
    }
  }

  lemma {:induction false} AllBefore<V>(s: Recency<V>, i: nat, stored: set<DocId>)
    requires DistinctKeys(s) && i <= |s| && forall q <- stored :: Before(s, i, q)
    ensures |stored| <= i
  {
    if i == 0 {
      assert stored == {};
    } else {
      var q := s[i - 1].0;
      AllBefore(s, i - 1, stored - {q});
    }
  }

  /** Once as many other keys as the capacity have been stored, a key that was not used meanwhile is gone. */
  lemma StoresPushOut<V(!new)>(capacity: nat, ops: seq<Op<V>>, k: DocId, more: seq<Op<V>>)
    requires capacity >= 1 && |Stores(more)| >= capacity && forall op <- more :: op.key != k
    ensures !HasKey(Run(capacity, ops + more), k)
  {
    var s := Run(capacity, ops + more);
    StoresOvertake(capacity, ops, k, more);
    RunIsBounded(capacity, ops + more);
    if i :| 0 <= i < |s| && s[i].0 == k {
      AllBefore(s, i, Stores(more));
    }
  }

  /** While only other keys are stored, a key just used stays exactly as long as they are fewer than the capacity. */
  lemma StaysWhileFewer<V(!new)>(capacity: nat, ops: seq<Op<V>>, op: Op<V>, more: seq<Op<V>>)
    requires capacity >= 1 && HasKey(Run(capacity, ops + [op]), op.key)
    requires forall o <- more :: o.Put? && o.key != op.key
    ensures HasKey(Run(capacity, ops + [op] + more), op.key) <==> |Stores(more)| < capacity
  {
    assert Others(more, op.key) == Stores(more);
    if |Stores(more)| < capacity {
      UsedKeyStays(capacity, ops, op, more);
    } else {
      StoresPushOut(capacity, ops + [op], op.key, more);
    }
  }

  /** What an operation returns: the value for a lookup, nothing for a store. */
  function Result<V>(s: Recency<V>, op: Op<V>): Any<V> {
    if op.Get? then Lookup(s, op.key) else None
  }

  /** One operation on a cache. */
  method Perform<V>(cache: LRUCache<V>, op: Op<V>) returns (r: Any<V>)
    requires cache.Valid()
    modifies cache`mp, cache`nodes, cache.Repr()
    ensures cache.Valid() && fresh(cache.Repr() - old(cache.Repr()))
    ensures cache.Entries() == Step(old(cache.Entries()), cache.capacity, op)
    ensures r == Result(old(cache.Entries()), op)
  {
    hide Touched, Stored, Lookup, LRUCache.Consistent;
    match op {
      case Get(k) => r := cache.Get(k);
      case Put(k, v) =>
        cache.Put(k, v);
        r := None;
    }
  }

  lemma RunOneMore<V>(capacity: nat, ops: seq<Op<V>>, i: nat)
    requires capacity >= 1 && i < |ops|
    ensures Run(capacity, ops[..i + 1]) == Step(Run(capacity, ops[..i]), capacity, ops[i])
  {
    assert ops[..i + 1][..i] == ops[..i];
  }

  /** A trace on a new cache: the list and the map come out as the recency sequence of the trace, and every lookup
      returns what it would return there. */
  method Replay<V>(capacity: nat, zero: DocId, ops: seq<Op<V>>) returns (cache: LRUCache<V>, got: seq<Any<V>>)
    requires capacity >= 1
    ensures fresh(cache) && cache.Valid() && cache.capacity == capacity
    ensures cache.Entries() == Run(capacity, ops)
    ensures |got| == |ops| && forall i :: 0 <= i < |ops| ==> got[i] == Result(Run(capacity, ops[..i]), ops[i])
  {
    hide Run, Step, Result, LRUCache.Valid, LRUCache.Entries;
    cache := new LRUCache<V>(capacity, zero);
    got := [];
    EmptyRun<V>(capacity, ops);
    for i := 0 to |ops|
      invariant fresh(cache) && fresh(cache.Repr()) && cache.Valid() && cache.capacity == capacity
      invariant cache.Entries() == Run(capacity, ops[..i])
      invariant |got| == i && forall j :: 0 <= j < i ==> got[j] == Result(Run(capacity, ops[..j]), ops[j])
    {
      var r := Perform(cache, ops[i]);
      RunOneMore(capacity, ops, i);
      got := got + [r];
    }
    assert ops[..|ops|] == ops;
  }

  lemma EmptyRun<V>(capacity: nat, ops: seq<Op<V>>)
    requires capacity >= 1
    ensures Run(capacity, ops[..0]) == []
  {
  }
}
