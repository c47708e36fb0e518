/**
 The chained hash map of the C runtime, whose resize re-links its nodes in place, for
 integer and string keys mixed in any way. Equality of keys goes by their texts and the
 bucket by their hashes, so the table may take one key for another; `Stand` says which,
 and `ActsAsMapIff` exactly when a sequence of operations does not notice.

 A table is described by its chains: for each bucket the sequence of its nodes.
 Keys of nodes never change, so which key is where is a fact about the chains alone;
 only the links and the values live in the heap.
 */
module HashTable {
  import opened Common
  import opened MapKeys
  import opened Machine

  class MapNode {
    const key: Key
    var val: Value
    var next: MapNode?
    // where the node is: which table, which bucket, and its rank within the chain
    ghost var table: nat
    ghost var bucket: nat
    ghost var rank: nat

    constructor (key: Key, val: Value)
      ensures this.key == key && this.val == val
    {
      this.key, this.val, this.next := key, val, null;
      this.table, this.bucket, this.rank := 0, 0, 0;
    }
  }

  type Chains = seq<seq<MapNode>>

  // ---- Which keys are where ----

  /** The nodes of every bucket from `from` on. */
  ghost function AllNodes(chains: Chains, from: nat := 0): (s: set<MapNode>)
    ensures forall b, j :: from <= b < |chains| && 0 <= j < |chains[b]| ==> chains[b][j] in s
  {
    set b, j | from <= b < |chains| && 0 <= j < |chains[b]| :: chains[b][j]
  }

  ghost function KeysOf(nodes: set<MapNode>): set<Key> {
    set n | n in nodes :: n.key
  }

  ghost function NodesOf(c: seq<MapNode>): set<MapNode> {
    set n | n in c
  }

  ghost predicate DistinctNodes(c: seq<MapNode>) {
    forall i, j :: 0 <= i < j < |c| ==> c[i] != c[j]
  }

  /** No node's key is taken for another's in a table of that capacity. */
  ghost predicate Unconfused(nodes: set<MapNode>, cap: nat)
    requires cap > 0
  {
    forall m, n :: m in nodes && n in nodes && m != n ==> m.key != n.key && !Confused(m.key, n.key, cap)
  }

  /** Every node sits in the bucket its key hashes to, and no two keys of a bucket are equal to value_eq. */
  ghost predicate Housed(chains: Chains) {
    && |chains| > 0
    && (forall b :: 0 <= b < |chains| ==> DistinctNodes(chains[b]))
    && (forall b, j :: 0 <= b < |chains| && 0 <= j < |chains[b]| ==> Hash(chains[b][j].key) % |chains| == b)
    && Unconfused(AllNodes(chains), |chains|)
  }

  lemma UnconfusedDoubled(nodes: set<MapNode>, cap: nat)
    requires cap > 0 && Unconfused(nodes, cap)
    ensures Unconfused(nodes, 2 * cap)
  {
    hide Confused;
    forall m, n | m in nodes && n in nodes && m != n ensures !Confused(m.key, n.key, 2 * cap) {
      if Confused(m.key, n.key, 2 * cap) {
        ConfusedDoubled(m.key, n.key, cap);
      }
    }
  }

  /** In any bucket value_eq tells the keys apart. */
  lemma BucketApart(chains: Chains, b: nat, i: nat, j: nat)
    requires Housed(chains) && b < |chains| && i < |chains[b]| && j < |chains[b]| && i != j
    ensures !KeyEq(chains[b][i].key, chains[b][j].key)
  {
    hide Hash, KeyEq;
    var m, n := chains[b][i], chains[b][j];
    assert DistinctNodes(chains[b]);
    assert m in AllNodes(chains) && n in AllNodes(chains) && m != n;
    KeyEqIff(m.key, n.key);
  }

  /** The chains after `n` went to the head of bucket `b`. */
  function Added(chains: Chains, b: nat, n: MapNode): (r: Chains)
    requires b < |chains|
    ensures |r| == |chains|
  {
    chains[b := [n] + chains[b]]
  }

  lemma AddedNodes(chains: Chains, b: nat, n: MapNode)
    requires b < |chains|
    ensures AllNodes(Added(chains, b, n)) == AllNodes(chains) + {n}
  {
    var d := Added(chains, b, n);
    assert d[b][0] == n;
    forall m | m in AllNodes(chains) ensures m in AllNodes(d) {
      var a, j :| 0 <= a < |chains| && 0 <= j < |chains[a]| && chains[a][j] == m;
      assert d[a][if a == b then j + 1 else j] == m;
    }
    forall m | m in AllNodes(d) ensures m in AllNodes(chains) + {n} {
      var a, j :| 0 <= a < |d| && 0 <= j < |d[a]| && d[a][j] == m;
      if a == b && j > 0 {
        assert m == chains[b][j - 1];
      }
    }
  }

  lemma AddedHoused(chains: Chains, n: MapNode)
    requires Housed(chains) && n !in AllNodes(chains)
    requires Unconfused(AllNodes(chains) + {n}, |chains|)
    ensures Housed(Added(chains, Hash(n.key) % |chains|, n))
  {
    hide Hash, Unconfused;
    var b := Hash(n.key) % |chains|;
    var d := Added(chains, b, n);
    AddedNodes(chains, b, n);
    forall a | 0 <= a < |d| ensures DistinctNodes(d[a]) {
      assert DistinctNodes(chains[a]);
      forall j | 0 <= j < |chains[a]| ensures chains[a][j] != n {
        assert chains[a][j] in AllNodes(chains);
      }
    }
  }

  lemma UnconfusedSome(nodes: set<MapNode>, some: set<MapNode>, cap: nat)
    requires cap > 0 && Unconfused(nodes, cap) && some <= nodes
    ensures Unconfused(some, cap)
  {
  }

  /** The chains after a resize moved the nodes `c`, in order, each to the head of its new bucket. */
  function Moved(chains: Chains, c: seq<MapNode>): (r: Chains)
    requires |chains| > 0
    ensures |r| == |chains|
    decreases |c|
  {
    if c == [] then chains else Moved(Added(chains, Hash(c[0].key) % |chains|, c[0]), c[1..])
  }

  lemma {:induction false} MovedNodes(chains: Chains, c: seq<MapNode>)
    requires |chains| > 0
    ensures AllNodes(Moved(chains, c)) == AllNodes(chains) + NodesOf(c)
    decreases |c|
  {
    hide Hash, Added, AllNodes;
    if c != [] {
      var d := Added(chains, Hash(c[0].key) % |chains|, c[0]);
      AddedNodes(chains, Hash(c[0].key) % |chains|, c[0]);
      MovedNodes(d, c[1..]);
      assert c == [c[0]] + c[1..];
    }
  }

  lemma {:induction false} MovedHoused(chains: Chains, c: seq<MapNode>)
    requires |chains| > 0 && Housed(chains) && DistinctNodes(c)
    requires forall j :: 0 <= j < |c| ==> c[j] !in AllNodes(chains)
    requires Unconfused(AllNodes(chains) + NodesOf(c), |chains|)
    ensures Housed(Moved(chains, c))
    decreases |c|
  {
    hide Hash, Added, AllNodes, Housed, Unconfused;
    if c != [] {
      var b := Hash(c[0].key) % |chains|;
      var all := AllNodes(chains) + NodesOf(c);
      UnconfusedSome(all, AllNodes(chains) + {c[0]}, |chains|);
      AddedHoused(chains, c[0]);
      AddedNodes(chains, b, c[0]);
      UnconfusedSome(all, AllNodes(Added(chains, b, c[0])) + NodesOf(c[1..]), |chains|);
      MovedHoused(Added(chains, b, c[0]), c[1..]);
    }
  }

  /** A resize so far: the first `n` old buckets emptied into `2 * |was|` new ones. */
  function Rehashed(was: Chains, n: nat): (r: Chains)
    requires |was| > 0 && n <= |was|
    ensures |r| == 2 * |was|
  {
    if n == 0 then seq(2 * |was|, _ => []) else Moved(Rehashed(was, n - 1), was[n - 1])
  }

  lemma {:induction false} RehashedNodes(was: Chains, n: nat)
    requires |was| > 0 && n <= |was|
    ensures AllNodes(Rehashed(was, n)) == AllNodes(was[..n])
  {
    hide Moved;
    if n > 0 {
      RehashedNodes(was, n - 1);
      MovedNodes(Rehashed(was, n - 1), was[n - 1]);
      forall m | m in AllNodes(was[..n - 1]) ensures m in AllNodes(was[..n]) {
        var a, j :| 0 <= a < n - 1 && 0 <= j < |was[a]| && was[..n - 1][a][j] == m;
        assert was[..n][a][j] == m;
      }
      forall m | m in was[n - 1] ensures m in AllNodes(was[..n]) {
        var j :| 0 <= j < |was[n - 1]| && was[n - 1][j] == m;
        assert was[..n][n - 1][j] == m;
      }
    }
  }

  lemma {:induction false} RehashedHoused(was: Chains, n: nat)
    requires n <= |was| && Housed(was)
    ensures Housed(Rehashed(was, n))
  {
    hide Moved, Hash, AllNodes, Unconfused;
    if n == 0 {
      NoneHoused(Rehashed(was, 0));
    } else {
      RehashedHoused(was, n - 1);
      var c := was[n - 1];
      assert DistinctNodes(c);
      RehashedNodes(was, n - 1);
      forall j | 0 <= j < |c| ensures c[j] !in AllNodes(was[..n - 1]) {
        NotBefore(was, n - 1, j);
      }
      SomeNodes(was, n);
      UnconfusedDoubled(AllNodes(was), |was|);
      UnconfusedSome(AllNodes(was), AllNodes(was[..n - 1]) + NodesOf(c), 2 * |was|);
      MovedHoused(Rehashed(was, n - 1), c);
    }
  }

  lemma NoneHoused(chains: Chains)
    requires |chains| > 0 && forall b :: 0 <= b < |chains| ==> chains[b] == []
    ensures Housed(chains)
  {
  }

  lemma SomeNodes(was: Chains, n: nat)
    requires 0 < n <= |was|
    ensures AllNodes(was[..n - 1]) + NodesOf(was[n - 1]) <= AllNodes(was)
  {
    forall m | m in AllNodes(was[..n - 1]) ensures m in AllNodes(was) {
      var a, i :| 0 <= a < n - 1 && 0 <= i < |was[..n - 1][a]| && was[..n - 1][a][i] == m;
      assert was[a][i] == m;
    }
  }

  lemma NotBefore(was: Chains, b: nat, j: nat)
    requires Housed(was) && b < |was| && j < |was[b]|
    ensures was[b][j] !in AllNodes(was[..b])
  {
    hide Hash, Unconfused;
    forall m | m in AllNodes(was[..b]) ensures m != was[b][j] {
      var a, i :| 0 <= a < b && 0 <= i < |was[a]| && was[..b][a][i] == m;
      assert Hash(was[a][i].key) % |was| == a && Hash(was[b][j].key) % |was| == b;
    }
  }

  // ---- The links in the heap ----

  function After(c: seq<MapNode>, j: nat): MapNode? {
    if j + 1 < |c| then c[j + 1] else null
  }

  /** `head` is the linked list of exactly the nodes `c`, each knowing its place. */
  ghost predicate Chained(head: MapNode?, c: seq<MapNode>, table: nat, b: nat)
    reads c`next, c`table, c`bucket, c`rank
  {
    && head == (if c == [] then null else c[0])
    && (forall j :: 0 <= j < |c| ==> c[j].table == table && c[j].bucket == b)
    && (forall j {:trigger c[j].next} :: 0 <= j < |c| ==> c[j].next == After(c, j))
    && (forall i, j {:trigger c[i].rank, c[j].rank} :: 0 <= i < j < |c| ==> c[i].rank > c[j].rank)
  }

  /** Every bucket from `from` on is the linked list of its chain. */
  ghost predicate Linked(heads: seq<MapNode?>, chains: Chains, table: nat, from: nat := 0)
    reads AllNodes(chains, from)`next, AllNodes(chains, from)`table
    reads AllNodes(chains, from)`bucket, AllNodes(chains, from)`rank
  {
    && |heads| == |chains|
    && forall b :: from <= b < |chains| ==> Chained(heads[b], chains[b], table, b)
  }

  lemma NotLinked(heads: seq<MapNode?>, chains: Chains, table: nat, n: MapNode)
    requires Linked(heads, chains, table) && n.table != table
    ensures n !in AllNodes(chains)
  {
    forall m | m in AllNodes(chains) ensures m.table == table {
      var b, j :| 0 <= b < |chains| && 0 <= j < |chains[b]| && chains[b][j] == m;
      assert Chained(heads[b], chains[b], table, b);
    }
  }

  lemma TailChained(head: MapNode?, c: seq<MapNode>, table: nat, b: nat)
    requires Chained(head, c, table, b) && head != null
    ensures c != [] && c[0] == head && head !in c[1..] && head.table == table && head.bucket == b
    ensures Chained(head.next, c[1..], table, b)
  {
    var d := c[1..];
    forall j | 0 <= j < |d| ensures d[j].next == After(d, j) && d[j] != head {
      assert d[j] == c[j + 1] && After(d, j) == After(c, j + 1);
      assert c[0].rank > c[j + 1].rank;
    }
  }

  lemma HeadChained(n: MapNode, head: MapNode?, c: seq<MapNode>, table: nat, b: nat)
    requires Chained(head, c, table, b)
    requires n.next == head && n.table == table && n.bucket == b
    requires c != [] ==> n.rank > c[0].rank
    ensures Chained(n, [n] + c, table, b)
  {
    var d := [n] + c;
    forall j | 0 <= j < |d| ensures d[j].next == After(d, j) {
      if j > 0 {
        assert d[j] == c[j - 1] && After(d, j) == After(c, j - 1);
      }
    }
    forall i, j | 0 <= i < j < |d| ensures d[i].rank > d[j].rank {
      if i > 0 {
        assert d[i] == c[i - 1] && d[j] == c[j - 1];
      }
    }
  }

  lemma HeadLinked(heads: seq<MapNode?>, chains: Chains, table: nat, b: nat, n: MapNode)
    requires Linked(heads, chains, table) && b < |heads|
    requires n.next == heads[b] && n.table == table && n.bucket == b
    requires chains[b] != [] ==> n.rank > chains[b][0].rank
    ensures Linked(heads[b := n], Added(chains, b, n), table)
  {
    assert Chained(heads[b], chains[b], table, b);
    HeadChained(n, heads[b], chains[b], table, b);
  }

  /** Put a node that is in no chain at the head of bucket `b`. */
  method Prepend(buckets: array<MapNode?>, n: MapNode, b: nat, ghost chains: Chains, ghost table: nat)
    requires b < buckets.Length == |chains|
    requires Linked(buckets[..], chains, table) && n !in AllNodes(chains)
    modifies buckets, n
    ensures n.val == old(n.val)
    ensures Linked(buckets[..], Added(chains, b, n), table)
  {
    hide AllNodes, Chained;
    ghost var heads := buckets[..];
    assert Linked(heads, chains, table);
    n.next := buckets[b];
    buckets[b] := n;
    n.table, n.bucket := table, b;
    n.rank := if chains[b] == [] then 0 else chains[b][0].rank + 1;
    assert Linked(heads, chains, table);
    HeadLinked(heads, chains, table, b, n);
  }

  /** The inner loop of the resize: move one old chain, node by node. */
  method MoveChain(head: MapNode?, buckets: array<MapNode?>, ghost c: seq<MapNode>, ghost b: nat,
      ghost chains: Chains, ghost table: nat)
    requires buckets.Length == |chains| > 0
    requires Chained(head, c, table, b) && Linked(buckets[..], chains, table + 1)
    modifies buckets, c
    ensures Linked(buckets[..], Moved(chains, c), table + 1)
    ensures forall n :: n in c ==> n.val == old(n.val)
  {
    hide Hash, Linked, AllNodes, Added, Chained;
    var curr := head;
    ghost var rest, moved := c, chains;
    while curr != null
      invariant |moved| == buckets.Length
      invariant Chained(curr, rest, table, b)
      invariant Linked(buckets[..], moved, table + 1)
      invariant Moved(moved, rest) == Moved(chains, c)
      invariant forall n :: n in rest ==> n in c
      invariant forall n :: n in c ==> n.val == old(n.val)
      decreases |rest|
    {
      TailChained(curr, rest, table, b);
      NotLinked(buckets[..], moved, table + 1, curr);
      assert curr == rest[0] && curr in c;
      var next := curr.next;
      var index := Hash(curr.key) % buckets.Length;
      Prepend(buckets, curr, index, moved, table + 1);
      moved := Added(moved, index, curr);
      rest := rest[1..];
      curr := next;
    }
    assert rest == [] by { EndChained(rest, table, b); }
  }

  lemma EndChained(c: seq<MapNode>, table: nat, b: nat)
    requires Chained(null, c, table, b)
    ensures c == []
  {
  }

  /** Chains of different buckets share no node. */
  lemma ChainsApart(heads: seq<MapNode?>, chains: Chains, table: nat, b: nat)
    requires b < |chains| && Linked(heads, chains, table, b)
    ensures Chained(heads[b], chains[b], table, b) && Linked(heads, chains, table, b + 1)
    ensures forall n :: n in chains[b] ==> n !in AllNodes(chains, b + 1)
  {
    assert Chained(heads[b], chains[b], table, b);
    forall a | b < a < |chains| ensures Chained(heads[a], chains[a], table, a) {
    }
    forall m | m in AllNodes(chains, b + 1) ensures m.bucket != b {
      var a, j :| b + 1 <= a < |chains| && 0 <= j < |chains[a]| && chains[a][j] == m;
      assert Chained(heads[a], chains[a], table, a);
    }
  }

  /** One round of the resize's outer loop: old bucket `b` is emptied into the new table. */
  method MoveBucket(head: MapNode?, buckets: array<MapNode?>, ghost heads: seq<MapNode?>, ghost was: Chains,
      ghost b: nat, ghost table: nat, ghost contents: map<Key, Value>)
    requires b < |was| == |heads| && head == heads[b] && buckets.Length == 2 * |was|
    requires Linked(heads, was, table, b) && Linked(buckets[..], Rehashed(was, b), table + 1)
    requires Valued(AllNodes(was), contents)
    modifies buckets, was[b]
    ensures Linked(heads, was, table, b + 1) && Linked(buckets[..], Rehashed(was, b + 1), table + 1)
    ensures Valued(AllNodes(was), contents)
  {
    hide Moved;
    ChainsApart(heads, was, table, b);
    assert Linked(heads, was, table, b + 1);
    MoveChain(head, buckets, was[b], b, Rehashed(was, b), table);
    assert Linked(heads, was, table, b + 1);
  }

  /** The walk down a chain shared by get, has, set and remove; `prev` trails `curr`. */
  method Walk(head: MapNode?, key: Key, ghost c: seq<MapNode>, ghost table: nat, ghost b: nat)
    returns (prev: MapNode?, curr: MapNode?, ghost j: nat)
    requires Chained(head, c, table, b)
    ensures curr == null ==> forall i :: 0 <= i < |c| ==> !KeyEq(c[i].key, key)
    ensures curr != null ==> j < |c| && c[j] == curr && KeyEq(curr.key, key)
    ensures curr != null ==> prev == if j == 0 then null else c[j - 1]
  {
    hide KeyEq;
    prev, curr, j := null, head, 0;
    while curr != null && !KeyEq(curr.key, key)
      invariant j <= |c| && curr == (if j < |c| then c[j] else null)
      invariant prev == if j == 0 then null else c[j - 1]
      invariant forall i :: 0 <= i < j ==> !KeyEq(c[i].key, key)
      decreases |c| - j
    {
      prev, curr, j := curr, curr.next, j + 1;
    }
  }

  /** What a table of that capacity takes `key` for: a key it holds, or `key` itself. */
  ghost function Stand(keys: set<Key>, cap: nat, key: Key): (k: Key)
    requires cap > 0
    ensures k == key || (k in keys && Confused(k, key, cap))
  {
    if key !in keys && exists k :: k in keys && Confused(k, key, cap) then
      var k :| k in keys && Confused(k, key, cap);
      k
    else key
  }

  /** No key is taken for another one. */
  ghost predicate Told(keys: set<Key>, cap: nat)
    requires cap > 0
  {
    forall a, b :: a in keys && b in keys ==> !Confused(a, b, cap)
  }

  lemma ConfusedTogether(a: Key, b: Key, key: Key, cap: nat)
    requires cap > 0 && a != b && Confused(a, key, cap) && Confused(b, key, cap)
    ensures Confused(a, b, cap)
  {
    hide Hash, Name;
  }

  lemma StandIs(keys: set<Key>, cap: nat, key: Key, k: Key)
    requires cap > 0 && Told(keys, cap) && k in keys && (k == key || Confused(k, key, cap))
    ensures Stand(keys, cap, key) == k
  {
    hide Confused;
    if key !in keys {
      var s := Stand(keys, cap, key);
      if s != k {
        ConfusedTogether(s, k, key, cap);
      }
    }
  }

  lemma HousedTold(chains: Chains)
    requires Housed(chains)
    ensures Told(KeysOf(AllNodes(chains)), |chains|)
  {
    hide Hash, Name, AllNodes;
  }

  /** The bucket of `key` has a node that value_eq takes for it exactly if the table holds the key it stands for. */
  lemma FoundOrAbsent(chains: Chains, key: Key)
    requires Housed(chains)
    ensures var c, s := chains[Hash(key) % |chains|], Stand(KeysOf(AllNodes(chains)), |chains|, key);
            && (forall i :: 0 <= i < |c| && KeyEq(c[i].key, key) ==> c[i].key == s && s in KeysOf(AllNodes(chains)))
            && (s in KeysOf(AllNodes(chains)) ==> exists i :: 0 <= i < |c| && KeyEq(c[i].key, key))
  {
    hide Hash, Name, KeyEq, Unconfused, AllNodes;
    var keys, cap := KeysOf(AllNodes(chains)), |chains|;
    var b := Hash(key) % cap;
    var s := Stand(keys, cap, key);
    HousedTold(chains);
    forall i | 0 <= i < |chains[b]| && KeyEq(chains[b][i].key, key) ensures chains[b][i].key == s && s in keys {
      KeyEqIff(chains[b][i].key, key);
      assert chains[b][i] in AllNodes(chains) by { InAllNodes(chains, b); }
      StandIs(keys, cap, key, chains[b][i].key);
    }
    if s in keys {
      var n :| n in AllNodes(chains) && n.key == s;
      var a, j := Whereabouts(chains, n);
      assert a == Hash(s) % cap == b;
      KeyEqIff(s, key);
      assert KeyEq(chains[b][j].key, key);
    }
  }

  lemma Whereabouts(chains: Chains, n: MapNode) returns (a: nat, j: nat)
    requires n in AllNodes(chains) && Housed(chains)
    ensures a < |chains| && j < |chains[a]| && chains[a][j] == n && Hash(n.key) % |chains| == a
  {
    a, j :| 0 <= a < |chains| && 0 <= j < |chains[a]| && chains[a][j] == n;
  }

  /** The outer loop of the resize: every node moves to a table of twice the size. */
  method Rehash(oldBuckets: array<MapNode?>, ghost was: Chains, ghost table: nat, ghost contents: map<Key, Value>)
    returns (newBuckets: array<MapNode?>)
    requires |was| > 0 && Linked(oldBuckets[..], was, table) && Valued(AllNodes(was), contents)
    modifies AllNodes(was)
    ensures fresh(newBuckets) && newBuckets.Length == 2 * oldBuckets.Length
    ensures Linked(newBuckets[..], Rehashed(was, |was|), table + 1)
    ensures Valued(AllNodes(was), contents)
  {
    hide Linked, Chained, AllNodes, Rehashed, Valued;
    newBuckets := new MapNode?[2 * oldBuckets.Length](_ => null);
    ghost var heads := oldBuckets[..];
    LinkedLength(heads, was, table);
    NothingLinked(newBuckets[..], was, table + 1);
    var i := 0;
    while i < oldBuckets.Length
      invariant i <= oldBuckets.Length
      invariant Linked(heads, was, table, i)
      invariant Linked(newBuckets[..], Rehashed(was, i), table + 1)
      invariant Valued(AllNodes(was), contents)
      modifies newBuckets, AllNodes(was)
    {
      InAllNodes(was, i);
      MoveBucket(oldBuckets[i], newBuckets, heads, was, i, table, contents);
      i := i + 1;
    }
  }

  function ChainKeys(c: seq<MapNode>): seq<Key> {
    seq(|c|, j requires 0 <= j < |c| => c[j].key)
  }

  /** The keys of the first `n` buckets, bucket by bucket. */
  function Listing(chains: Chains, n: nat): seq<Key>
    requires n <= |chains|
  {
    if n == 0 then [] else Listing(chains, n - 1) + ChainKeys(chains[n - 1])
  }

  lemma ChainListed(c: seq<MapNode>)
    requires forall i, j :: 0 <= i < j < |c| ==> c[i].key != c[j].key
    ensures Lists(ChainKeys(c), KeysOf(NodesOf(c)))
  {
    var ks := ChainKeys(c);
    forall k | k in ks ensures k in KeysOf(NodesOf(c)) {
      var j :| 0 <= j < |ks| && ks[j] == k;
      assert c[j] in NodesOf(c);
    }
    forall n | n in NodesOf(c) ensures n.key in ks {
      var j :| 0 <= j < |c| && c[j] == n;
      assert ks[j] == n.key;
    }
  }

  lemma AllNodesLast(chains: Chains, n: nat)
    requires 0 < n <= |chains|
    ensures KeysOf(AllNodes(chains[..n])) == KeysOf(AllNodes(chains[..n - 1])) + KeysOf(NodesOf(chains[n - 1]))
  {
    var c := chains[n - 1];
    assert AllNodes(chains[..n]) == AllNodes(chains[..n - 1]) + NodesOf(c) by {
      forall m | m in AllNodes(chains[..n - 1]) ensures m in AllNodes(chains[..n]) {
        var a, j :| 0 <= a < n - 1 && 0 <= j < |chains[a]| && chains[..n - 1][a][j] == m;
        assert chains[..n][a][j] == m;
      }
      forall m | m in c ensures m in AllNodes(chains[..n]) {
        var j :| 0 <= j < |c| && c[j] == m;
        assert chains[..n][n - 1][j] == m;
      }
    }
  }

  lemma {:induction false} ListingListed(chains: Chains, n: nat)
    requires n <= |chains| && Housed(chains)
    ensures Lists(Listing(chains, n), KeysOf(AllNodes(chains[..n])))
  {
    hide Hash, Lists, ChainKeys, AllNodes, KeyEq, Unconfused;
    if n == 0 {
      EmptyListed(chains);
    } else {
      var c := chains[n - 1];
      ListingListed(chains, n - 1);
      forall i, j | 0 <= i < j < |c| ensures c[i].key != c[j].key {
        BucketApart(chains, n - 1, i, j);
        KeyEqIff(c[i].key, c[j].key);
      }
      ChainListed(c);
      AllNodesLast(chains, n);
      SomeNodes(chains, n);
      forall m, m' | m in NodesOf(c) && m' in AllNodes(chains[..n - 1]) ensures m.key != m'.key {
        var j :| 0 <= j < |c| && c[j] == m;
        NotBefore(chains, n - 1, j);
        if m.key == m'.key {
          OneNodePerKey(chains, m, m');
        }
      }
      ListsConcat(Listing(chains, n - 1), KeysOf(AllNodes(chains[..n - 1])), ChainKeys(c), KeysOf(NodesOf(c)));
    }
  }

  lemma OneNodePerKey(chains: Chains, m: MapNode, n: MapNode)
    requires Housed(chains) && m in AllNodes(chains) && n in AllNodes(chains) && m.key == n.key
    ensures m == n
  {
  }

  lemma EmptyListed(chains: Chains)
    ensures Lists([], KeysOf(AllNodes(chains[..0])))
  {
  }

  function Without(c: seq<MapNode>, j: nat): seq<MapNode>
    requires j < |c|
  {
    c[..j] + c[j + 1..]
  }

  /** What is left of the chains is in its place, and is not the node taken out. */
  lemma WithoutAt(chains: Chains, b: nat, j: nat, a: nat, i: nat)
    requires Housed(chains) && b < |chains| && j < |chains[b]|
    requires a < |chains| && i < |chains[b := Without(chains[b], j)][a]|
    ensures var n := chains[b := Without(chains[b], j)][a][i];
            n in AllNodes(chains) && n != chains[b][j] && Hash(n.key) % |chains| == a
  {
    hide Hash, Unconfused;
    var i' := if a == b && i >= j then i + 1 else i;
    assert chains[b := Without(chains[b], j)][a][i] == chains[a][i'];
    assert DistinctNodes(chains[b]);
    assert Hash(chains[b][j].key) % |chains| == b;
  }

  lemma WithoutDistinct(c: seq<MapNode>, j: nat)
    requires j < |c| && DistinctNodes(c)
    ensures DistinctNodes(Without(c, j))
  {
  }

  lemma WithoutNodes(chains: Chains, b: nat, j: nat)
    requires Housed(chains) && b < |chains| && j < |chains[b]|
    ensures var d := chains[b := Without(chains[b], j)];
            AllNodes(d) == AllNodes(chains) - {chains[b][j]} && Housed(d)
  {
    hide Hash, Unconfused, DistinctNodes;
    var c, d := chains[b], chains[b := Without(chains[b], j)];
    forall m | m in AllNodes(chains) && m != c[j] ensures m in AllNodes(d) {
      var a, i :| 0 <= a < |chains| && 0 <= i < |chains[a]| && chains[a][i] == m;
      assert d[a][if a == b && i > j then i - 1 else i] == m;
    }
    forall a, i | 0 <= a < |d| && 0 <= i < |d[a]|
      ensures d[a][i] in AllNodes(chains) && d[a][i] != c[j] && Hash(d[a][i].key) % |d| == a
    {
      WithoutAt(chains, b, j, a, i);
    }
    WithoutDistinct(c, j);
    UnconfusedSome(AllNodes(chains), AllNodes(d), |chains|);
  }

  lemma AfterWithout(c: seq<MapNode>, j: nat, i: nat)
    requires j < |c| && i < |c| - 1
    ensures After(Without(c, j), i) == After(c, if i + 1 < j then i else if i + 1 == j then j else i + 1)
  {
  }

  lemma HeadWithout(c: seq<MapNode>, j: nat)
    requires j < |c|
    ensures (if Without(c, j) == [] then null else Without(c, j)[0]) == if j == 0 then After(c, 0) else c[0]
  {
  }

  /** Take node `j` out of chain `b`: the bucket or the node before it skips it. */
  method Unlink(buckets: array<MapNode?>, prev: MapNode?, curr: MapNode, b: nat, ghost chains: Chains,
      ghost table: nat, ghost j: nat)
    requires b < buckets.Length == |chains| && Linked(buckets[..], chains, table)
    requires j < |chains[b]| && chains[b][j] == curr && prev == if j == 0 then null else chains[b][j - 1]
    modifies buckets, (if prev == null then {} else {prev})`next
    ensures Linked(buckets[..], chains[b := Without(chains[b], j)], table)
  {
    hide After, AllNodes;
    ghost var c, d, heads := chains[b], Without(chains[b], j), buckets[..];
    assert Chained(heads[b], c, table, b);
    assert forall i :: 0 <= i < |c| && i + 1 != j ==> c[i] != prev by {
      assert forall i :: 0 <= i < |c| && i + 1 != j && j > 0 ==> c[i].rank != c[j - 1].rank;
    }
    assert curr.next == After(c, j);
    forall a | 0 <= a < |chains| && a != b ensures Chained(heads[a], chains[a], table, a) && prev !in chains[a] {
    }
    if prev != null {
      prev.next := curr.next;
    } else {
      buckets[b] := curr.next;
    }
    assert forall a :: 0 <= a < |chains| && a != b ==> Chained(buckets[a], chains[a], table, a);
    forall i | 0 <= i < |d| ensures d[i].next == After(d, i) {
      AfterWithout(c, j, i);
      assert d[i] == c[if i < j then i else i + 1];
    }
    HeadWithout(c, j);
    UnlinkedChain(buckets[b], c, j, table, b);
  }

  lemma UnlinkedChain(head: MapNode?, c: seq<MapNode>, j: nat, table: nat, b: nat)
    requires j < |c|
    requires forall i :: 0 <= i < |c| ==> c[i].table == table && c[i].bucket == b
    requires forall i, k :: 0 <= i < k < |c| ==> c[i].rank > c[k].rank
    requires var d := Without(c, j);
             head == (if d == [] then null else d[0]) && forall i :: 0 <= i < |d| ==> d[i].next == After(d, i)
    ensures Chained(head, Without(c, j), table, b)
  {
  }

  method Collect(head: MapNode?, start: seq<Key>, ghost c: seq<MapNode>, ghost table: nat, ghost b: nat)
    returns (pairs: seq<Key>)
    requires Chained(head, c, table, b)
    ensures pairs == start + ChainKeys(c)
  {
    pairs := start;
    var curr := head;
    ghost var j := 0;
    while curr != null
      invariant j <= |c| && curr == (if j < |c| then c[j] else null)
      invariant pairs == start + ChainKeys(c)[..j]
      decreases |c| - j
    {
      pairs := pairs + [curr.key];
      curr, j := curr.next, j + 1;
    }
  }

  // ---- The map ----

  class RcMap {
    var buckets: array<MapNode?>
    var size: nat
    ghost var chains: Chains
    ghost var table: nat
    ghost var contents: map<Key, Value>

    ghost predicate Valid()
      reads this, buckets, AllNodes(chains)
    {
      && buckets.Length >= 16 && buckets.Length % 4 == 0
      && Linked(buckets[..], chains, table)
      && Housed(chains)
      && Valued(AllNodes(chains), contents)
      && KeysOf(AllNodes(chains)) == contents.Keys
      && size == |AllNodes(chains)| == |contents|
      && 4 * size <= 3 * buckets.Length
    }

    /** The key of the map that the table takes `key` for. */
    ghost function Meant(key: Key): Key
      requires buckets.Length > 0
      reads this
    {
      Stand(contents.Keys, buckets.Length, key)
    }

    constructor ()
      ensures Valid() && contents == map[] && buckets.Length == 16 && fresh(buckets) && AllNodes(chains) == {}
    {
      buckets := new MapNode?[16](_ => null);
      size := 0;
      chains, table, contents := seq(16, _ => []), 0, map[];
    }

    /** rc_map_resize: twice the buckets, every node re-linked, the map unchanged. */
    method Resize()
      requires Valid()
      modifies this, AllNodes(chains)
      ensures Valid() && contents == old(contents) && size == old(size)
      ensures buckets.Length == 2 * old(buckets.Length) && fresh(buckets)
      ensures AllNodes(chains) == old(AllNodes(chains))
    {
      hide Linked, Chained, AllNodes, Rehashed, Housed, KeysOf, Valued;
      ghost var was := chains;
      LinkedLength(buckets[..], was, table);
      var newBuckets := Rehash(buckets, was, table, contents);
      RehashedNodes(was, |was|);
      RehashedHoused(was, |was|);
      assert was[..|was|] == was;
      ghost var d, newHeads := Rehashed(was, |was|), newBuckets[..];
      assert Linked(newHeads, d, table + 1) && Valued(AllNodes(d), contents) && AllNodes(d) == AllNodes(was);
      buckets, chains, table := newBuckets, d, table + 1;
      assert Linked(newHeads, d, table) && Valued(AllNodes(d), contents);
    }

    method Find(key: Key) returns (prev: MapNode?, curr: MapNode?, ghost b: nat, ghost j: nat)
      requires Valid()
      ensures Valid() && |chains| == buckets.Length > 0 && b == Hash(key) % |chains|
      ensures curr == null <==> Meant(key) !in contents
      ensures curr != null ==> j < |chains[b]| && chains[b][j] == curr && curr.key == Meant(key)
      ensures curr != null ==> prev == if j == 0 then null else chains[b][j - 1]
    {
      hide Hash, KeyEq, Chained, Valued, Unconfused;
      b := Hash(key) % buckets.Length;
      assert Chained(buckets[b], chains[b], table, b);
      prev, curr, j := Walk(buckets[Hash(key) % buckets.Length], key, chains[b], table, b);
      FoundOrAbsent(chains, key);
    }

    method Get(key: Key) returns (r: Value)
      requires Valid()
      ensures Valid() && buckets.Length > 0 && r == if Meant(key) in contents then contents[Meant(key)] else Null
    {
      hide Hash, Linked, Housed, Stand;
      var prev, n, b, j := Find(key);
      if n != null {
        InAllNodes(chains, b);
        assert n in chains[b];
      }
      r := if n == null then Null else n.val;
    }

    method Has(key: Key) returns (r: bool)
      requires Valid()
      ensures Valid() && buckets.Length > 0 && (r <==> Meant(key) in contents)
    {
      hide Valid, Stand;
      var prev, n, b, j := Find(key);
      r := n != null;
    }

    method Overwrite(n: MapNode, val: Value)
      requires Valid() && n in AllNodes(chains)
      modifies this`contents, n`val
      ensures Valid() && contents == old(contents)[n.key := val]
    {
      hide AllNodes, Housed, Hash, Chained;
      n.val := val;
      contents := contents[n.key := val];
      assert old(contents).Keys == contents.Keys;
      forall m | m in AllNodes(chains) && m != n ensures m.key != n.key {
        if m.key == n.key {
          OneNodePerKey(chains, m, n);
        }
      }
    }

    method Insert(key: Key, val: Value)
      requires Valid() && Meant(key) !in contents
      requires 4 * (size + 1) <= 3 * buckets.Length
      modifies this, buckets
      ensures Valid() && contents == old(contents)[key := val]
      ensures buckets == old(buckets) && fresh(AllNodes(chains) - old(AllNodes(chains)))
    {
      hide AllNodes, Housed, Hash, Linked, Chained, Valued, KeysOf, Added, Stand, Confused, Unconfused;
      LinkedLength(buckets[..], chains, table);
      assert Valued(AllNodes(chains), contents);
      var node := new MapNode(key, val);
      var index := Hash(key) % buckets.Length;
      ghost var d, now := Added(chains, index, node), contents[key := val];
      Inserted(chains, node, index, contents);
      Prepend(buckets, node, index, chains, table);
      ghost var heads := buckets[..];
      assert Linked(heads, d, table) && Valued(AllNodes(d), now);
      chains, contents, size := d, now, size + 1;
      assert Linked(heads, d, table) && Valued(AllNodes(d), now);
    }

    /** rc_map_keys_sorted: collect every bucket's keys, then sort them by text. */
    method KeysSorted(qsort: seq<Key> -> seq<Key>) returns (ks: seq<Key>)
      requires Valid() && SortsNames(qsort)
      ensures ByName(ks, contents.Keys) && (NamesTell(contents.Keys) ==> Canonical(ks, contents.Keys))
    {
      hide AllNodes, Housed, Chained, Valued, KeysOf, SortsNames, Canonical, ByName, NamesTell, Lists;
      var pairs := [];
      var i := 0;
      while i < buckets.Length
        invariant i <= buckets.Length
        invariant pairs == Listing(chains, i)
      {
        pairs := Collect(buckets[i], pairs, chains[i], table, i);
        i := i + 1;
      }
      ListingListed(chains, |chains|);
      assert chains[..|chains|] == chains;
      QsortCanonical(pairs, contents.Keys, qsort);
      ks := qsort(pairs);
    }

    /** rc_map_set, the resize included. */
    method Set(key: Key, val: Value)
      requires Valid()
      modifies this, buckets, AllNodes(chains)
      ensures Valid() && buckets.Length == Capacity(|old(contents)|, old(buckets.Length)) > 0
      ensures contents == old(contents)[Stand(old(contents).Keys, buckets.Length, key) := val]
      ensures fresh(buckets) || buckets == old(buckets)
      ensures fresh(AllNodes(chains) - old(AllNodes(chains)))
    {
      hide Linked, Housed, Valued, KeysOf, Stand;
      if 4 * size >= 3 * buckets.Length {
        Resize();
      }
      Put(key, val);
    }

    /** rc_map_set in a table with room: overwrite the value of the key it means, or add a node. */
    method Put(key: Key, val: Value)
      requires Valid() && 4 * (size + 1) <= 3 * buckets.Length
      modifies this, buckets, AllNodes(chains)
      ensures Valid() && buckets.Length > 0
              && contents == old(contents)[Stand(old(contents).Keys, buckets.Length, key) := val]
      ensures buckets == old(buckets) && fresh(AllNodes(chains) - old(AllNodes(chains)))
    {
      hide Linked, Housed, Valued, KeysOf, Hash, Confused;
      var prev, curr, b, j := Find(key);
      if curr != null {
        InAllNodes(chains, b);
        assert curr in chains[b];
        Overwrite(curr, val);
      } else {
        Insert(key, val);
      }
    }

    /** rc_map_remove. */
    method Remove(key: Key)
      requires Valid()
      modifies this, buckets, AllNodes(chains)
      ensures Valid() && buckets.Length > 0
              && contents == old(contents) - {Stand(old(contents).Keys, buckets.Length, key)}
      ensures buckets == old(buckets) && AllNodes(chains) <= old(AllNodes(chains))
    {
      hide Hash, Valid, Stand;
      var prev, curr, b, j := Find(key);
      if curr != null {
        RemoveNode(prev, curr, Hash(key) % buckets.Length, j);
      } else {
        assert contents - {Meant(key)} == contents;
      }
    }

    method RemoveNode(prev: MapNode?, n: MapNode, b: nat, ghost j: nat)
      requires Valid() && b < |chains| == buckets.Length && j < |chains[b]| && chains[b][j] == n
      requires prev == if j == 0 then null else chains[b][j - 1]
      modifies this, buckets, AllNodes(chains)
      ensures Valid() && contents == old(contents) - {n.key}
      ensures buckets == old(buckets) && AllNodes(chains) <= old(AllNodes(chains))
    {
      hide AllNodes, Housed, Linked, Chained, Valued, KeysOf, Without;
      ghost var nodes := AllNodes(chains);
      InAllNodes(chains, b);
      assert n in nodes && (prev != null ==> prev in nodes);
      assert Valued(nodes, contents);
      WithoutNodes(chains, b, j);
      Unlink(buckets, prev, n, b, chains, table, j);
      assert Valued(nodes, contents);
      OneLess(nodes, n, contents, chains);
      ghost var heads, d, now := buckets[..], chains[b := Without(chains[b], j)], contents - {n.key};
      assert AllNodes(d) == nodes - {n};
      assert Linked(heads, d, table) && Valued(AllNodes(d), now) && KeysOf(AllNodes(d)) == now.Keys;
      chains, contents, size := d, now, size - 1;
      assert Linked(heads, d, table) && Valued(AllNodes(d), now);
    }
  }

  lemma OneLess(nodes: set<MapNode>, n: MapNode, contents: map<Key, Value>, chains: Chains)
    requires Valued(nodes, contents) && KeysOf(nodes) == contents.Keys && n in nodes
    requires nodes == AllNodes(chains) && Housed(chains)
    ensures Valued(nodes - {n}, contents - {n.key})
    ensures KeysOf(nodes - {n}) == (contents - {n.key}).Keys
    ensures |contents - {n.key}| == |contents| - 1 && |nodes - {n}| == |nodes| - 1
  {
    hide AllNodes, Housed;
    forall m | m in nodes && m != n ensures m.key != n.key {
      if m.key == n.key {
        OneNodePerKey(chains, m, n);
      }
    }
    assert n.key in KeysOf(nodes);
    assert (contents - {n.key}).Keys == contents.Keys - {n.key};
    assert KeysOf(nodes - {n}) == KeysOf(nodes) - {n.key};
  }

  /** The capacity rc_map_set works with: doubled when three quarters are taken. */
  function Capacity(size: nat, cap: nat): nat {
    if 4 * size >= 3 * cap then 2 * cap else cap
  }

  /** A key that stands for no other can be added. */
  lemma NewUnconfused(chains: Chains, n: MapNode, contents: map<Key, Value>)
    requires Housed(chains) && contents.Keys == KeysOf(AllNodes(chains))
    requires Stand(contents.Keys, |chains|, n.key) !in contents
    ensures Unconfused(AllNodes(chains) + {n}, |chains|) && n.key !in contents
  {
    hide AllNodes, Hash, Name;
    forall m | m in AllNodes(chains) ensures m.key != n.key && !Confused(m.key, n.key, |chains|) {
      assert m.key in contents;
    }
  }

  /** A new node for a key that stands for no other: the chains and the map with it. */
  lemma Inserted(chains: Chains, n: MapNode, b: nat, contents: map<Key, Value>)
    requires |chains| > 0 && Housed(chains) && b == Hash(n.key) % |chains| && Valued(AllNodes(chains), contents)
    requires KeysOf(AllNodes(chains)) == contents.Keys && |AllNodes(chains)| == |contents|
    requires Stand(contents.Keys, |chains|, n.key) !in contents
    ensures n !in AllNodes(chains) && AllNodes(Added(chains, b, n)) == AllNodes(chains) + {n}
    ensures Housed(Added(chains, b, n))
    ensures var d, now := AllNodes(Added(chains, b, n)), contents[n.key := n.val];
            Valued(d, now) && KeysOf(d) == now.Keys && |d| == |now| == |contents| + 1
  {
    hide AllNodes, Housed, Hash, Added, Stand, Unconfused;
    NewUnconfused(chains, n, contents);
    OneMore(AllNodes(chains), n, contents);
    AddedNodes(chains, b, n);
    AddedHoused(chains, n);
  }

  lemma OneMore(nodes: set<MapNode>, n: MapNode, contents: map<Key, Value>)
    requires Valued(nodes, contents) && KeysOf(nodes) == contents.Keys && n.key !in contents
    ensures n !in nodes
    ensures Valued(nodes + {n}, contents[n.key := n.val])
    ensures KeysOf(nodes + {n}) == contents[n.key := n.val].Keys
    ensures |contents[n.key := n.val]| == |contents| + 1 && |nodes + {n}| == |nodes| + 1
  {
    assert contents[n.key := n.val].Keys == contents.Keys + {n.key};
    assert KeysOf(nodes + {n}) == KeysOf(nodes) + {n.key};
  }

  ghost predicate Valued(nodes: set<MapNode>, contents: map<Key, Value>)
    reads nodes`val
  {
    forall n :: n in nodes ==> n.key in contents && contents[n.key] == n.val
  }

  lemma LinkedLength(heads: seq<MapNode?>, chains: Chains, table: nat)
    requires Linked(heads, chains, table)
    ensures |heads| == |chains|
  {
  }

  lemma NothingLinked(heads: seq<MapNode?>, was: Chains, table: nat)
    requires |was| > 0 && |heads| == 2 * |was|
    requires forall b :: 0 <= b < |heads| ==> heads[b] == null
    ensures Linked(heads, Rehashed(was, 0), table)
  {
  }

  lemma InAllNodes(chains: Chains, b: nat)
    requires b < |chains|
    ensures forall n :: n in chains[b] ==> n in AllNodes(chains)
  {
  }

  // ---- Any sequence of operations ----

  datatype MapOp = PutOp(key: Key, val: Value) | RemoveOp(key: Key) | GetOp(key: Key) | HasOp(key: Key)

  datatype Answer = Nothing | Got(val: Value) | Found(b: bool)

  /** A mathematical map's answer to one operation, and the map after it. */
  function Answered(m: map<Key, Value>, op: MapOp): Answer {
    match op
    case PutOp(_, _) => Nothing
    case RemoveOp(_) => Nothing
    case GetOp(k) => Got(if k in m then m[k] else Null)
    case HasOp(k) => Found(k in m)
  }

  function Applied(m: map<Key, Value>, op: MapOp): map<Key, Value> {
    match op
    case PutOp(k, v) => m[k := v]
    case RemoveOp(k) => m - {k}
    case GetOp(_) => m
    case HasOp(_) => m
  }

  function MapAfter(m: map<Key, Value>, ops: seq<MapOp>): map<Key, Value> {
    if ops == [] then m else Applied(MapAfter(m, DropLast(ops)), Last(ops))
  }

  /** What a table is to its callers: a map, and how many buckets it has. */
  datatype Table = Table(contents: map<Key, Value>, cap: nat)

  ghost predicate Sized(t: Table) {
    t.cap > 0
  }

  /** The table as an operation finds it: set may resize it first. */
  function Grown(t: Table, op: MapOp): (r: Table)
    ensures Sized(t) ==> Sized(r)
  {
    if op.PutOp? then t.(cap := Capacity(|t.contents|, t.cap)) else t
  }

  /** The key the table takes an operation's key for. */
  ghost function MeantBy(t: Table, op: MapOp): Key
    requires Sized(t)
  {
    var g := Grown(t, op);
    Stand(g.contents.Keys, g.cap, op.key)
  }

  function WithKey(op: MapOp, k: Key): MapOp {
    match op
    case PutOp(_, v) => PutOp(k, v)
    case RemoveOp(_) => RemoveOp(k)
    case GetOp(_) => GetOp(k)
    case HasOp(_) => HasOp(k)
  }

  ghost function TableAnswer(t: Table, op: MapOp): Answer
    requires Sized(t)
  {
    Answered(t.contents, WithKey(op, MeantBy(t, op)))
  }

  ghost function TableNext(t: Table, op: MapOp): (r: Table)
    requires Sized(t)
    ensures Sized(r)
  {
    Table(Applied(t.contents, WithKey(op, MeantBy(t, op))), Grown(t, op).cap)
  }

  ghost function TableAfter(ops: seq<MapOp>): (t: Table)
    ensures Sized(t)
  {
    if ops == [] then Table(map[], 16) else TableNext(TableAfter(DropLast(ops)), Last(ops))
  }

  /** The operation goes to another key, and not merely to read a null that a missing key gives too. */
  ghost predicate Harmed(t: Table, op: MapOp)
    requires Sized(t)
  {
    var k := MeantBy(t, op);
    k != op.key && !(op.GetOp? && k in t.contents && t.contents[k] == Null)
  }

  /** One operation on equal contents answers and changes them as a map does exactly if it is not harmed. */
  lemma HarmedIff(t: Table, op: MapOp)
    requires Sized(t)
    ensures !Harmed(t, op) <==>
            TableAnswer(t, op) == Answered(t.contents, op) && TableNext(t, op).contents == Applied(t.contents, op)
  {
    hide Confused;
    var k := MeantBy(t, op);
    if k != op.key {
      assert op.key !in t.contents && k in t.contents;
      assert op.RemoveOp? ==> k !in t.contents - {k} && k in t.contents - {op.key};
      assert op.PutOp? ==> op.key in t.contents[op.key := op.val] && op.key !in t.contents[k := op.val];
    }
  }

  ghost predicate Unharmed(ops: seq<MapOp>) {
    forall i :: 0 <= i < |ops| ==> !Harmed(TableAfter(ops[..i]), ops[i])
  }

  /** The answer to operation `i`, and the contents after it, are those of a map. */
  ghost predicate ActsAt(ops: seq<MapOp>, i: nat)
    requires i < |ops|
  {
    && TableAnswer(TableAfter(ops[..i]), ops[i]) == Answered(MapAfter(map[], ops[..i]), ops[i])
    && TableAfter(ops[..i + 1]).contents == MapAfter(map[], ops[..i + 1])
  }

  ghost predicate ActsAsMap(ops: seq<MapOp>) {
    forall i :: 0 <= i < |ops| ==> ActsAt(ops, i)
  }

  lemma TableStep(ops: seq<MapOp>, n: nat)
    requires n < |ops|
    ensures TableAfter(ops[..n + 1]) == TableNext(TableAfter(ops[..n]), ops[n])
  {
    assert DropLast(ops[..n + 1]) == ops[..n];
  }

  /**
   A table is never more than three quarters full, and has more than its first 16 buckets
   only if it once was three quarters full of half as many.
   */
  lemma {:induction false} GrownWhenFull(ops: seq<MapOp>) returns (i: nat)
    ensures var t := TableAfter(ops); t.cap % 16 == 0 && t.cap > 0 && 4 * |t.contents| <= 3 * t.cap
    ensures i <= |ops|
    ensures var t := TableAfter(ops); t.cap == 16 || 4 * |TableAfter(ops[..i]).contents| >= 3 * (t.cap / 2)
    decreases |ops|
  {
    hide TableNext;
    if ops == [] {
      i := 0;
    } else {
      var front := DropLast(ops);
      i := GrownWhenFull(front);
      NextGrown(TableAfter(front), Last(ops));
      assert ops[..|front|] == front;
      assert ops[..i] == front[..i];
      if TableAfter(ops).cap != TableAfter(front).cap {
        i := |front|;
      }
    }
  }

  lemma NextGrown(t: Table, op: MapOp)
    requires t.cap % 16 == 0 && t.cap > 0 && 4 * |t.contents| <= 3 * t.cap
    ensures var u := TableNext(t, op);
            && u.cap % 16 == 0 && u.cap > 0 && 4 * |u.contents| <= 3 * u.cap
            && (u.cap == t.cap || (u.cap == 2 * t.cap && 4 * |t.contents| >= 3 * t.cap))
  {
    hide Applied;
    OneMoreAtMost(t.contents, WithKey(op, MeantBy(t, op)));
    var c := t.cap / 16;
    assert t.cap == 16 * c;
  }

  lemma OneMoreAtMost(m: map<Key, Value>, op: MapOp)
    ensures |Applied(m, op)| <= |m| + if op.PutOp? then 1 else 0
  {
    match op
    case PutOp(k, v) =>
      assert m[k := v].Keys == m.Keys + {k};
    case RemoveOp(k) =>
      assert (m - {k}).Keys == m.Keys - {k};
    case _ =>
  }

  lemma {:induction false} SameContents(ops: seq<MapOp>, n: nat)
    requires n <= |ops| && (Unharmed(ops) || ActsAsMap(ops))
    ensures TableAfter(ops[..n]).contents == MapAfter(map[], ops[..n])
  {
    hide TableNext, Applied, Harmed, TableAnswer;
    if n > 0 {
      assert ActsAsMap(ops) ==> ActsAt(ops, n - 1);
      SameContents(ops, n - 1);
      TableStep(ops, n - 1);
      AfterNext(ops, n - 1);
      HarmedIff(TableAfter(ops[..n - 1]), ops[n - 1]);
    }
  }

  /** Over any sequence of operations the table acts as a map exactly if no operation is harmed. */
  lemma ActsAsMapIff(ops: seq<MapOp>)
    ensures ActsAsMap(ops) <==> Unharmed(ops)
  {
    hide TableNext, Applied, Harmed, TableAnswer, TableAfter, MapAfter;
    if ActsAsMap(ops) || Unharmed(ops) {
      forall i | 0 <= i < |ops| ensures !Harmed(TableAfter(ops[..i]), ops[i]) <==> ActsAt(ops, i) {
        SameContents(ops, i);
        TableStep(ops, i);
        AfterNext(ops, i);
        HarmedIff(TableAfter(ops[..i]), ops[i]);
      }
    }
  }

  ghost function Used(ops: seq<MapOp>): set<Key> {
    set i | 0 <= i < |ops| :: ops[i].key
  }

  lemma {:induction false} OnlyUsed(ops: seq<MapOp>, n: nat)
    requires n <= |ops|
    ensures TableAfter(ops[..n]).contents.Keys <= Used(ops)
  {
    hide Confused, Capacity;
    if n > 0 {
      OnlyUsed(ops, n - 1);
      TableStep(ops, n - 1);
      assert ops[n - 1].key in Used(ops);
    }
  }

  /** A caller whose keys have different names, of whatever kinds they are, has a map. */
  lemma NamesTellUnharmed(ops: seq<MapOp>)
    requires NamesTell(Used(ops))
    ensures Unharmed(ops)
  {
    hide Hash, Name, TableAfter;
    forall i | 0 <= i < |ops| ensures !Harmed(TableAfter(ops[..i]), ops[i]) {
      OnlyUsed(ops, i);
      assert ops[i].key in Used(ops);
    }
  }

  /** The failing input: with 13 in a new table, has("13") is true. */
  lemma ThirteenFails(v: Value)
    ensures var ops := [PutOp(IntKey(13), v), HasOp(StrKey([49, 51]))];
            && TableAnswer(TableAfter(ops[..1]), ops[1]) == Found(true)
            && Answered(MapAfter(map[], ops[..1]), ops[1]) == Found(false)
            && !Unharmed(ops)
  {
    hide Hash, Name, Confused;
    var ops := [PutOp(IntKey(13), v), HasOp(StrKey([49, 51]))];
    ThirteenConfused();
    TableStep(ops, 0);
    AfterNext(ops, 0);
    var none: map<Key, Value> := map[];
    assert ops[..0] == [] && MeantBy(Table(none, 16), ops[0]) == IntKey(13);
    var t := TableAfter(ops[..1]);
    assert t.contents == map[IntKey(13) := v] && t.cap == 16;
    StandIs(t.contents.Keys, 16, StrKey([49, 51]), IntKey(13)) by {
      assert Told(t.contents.Keys, 16) by { NotConfusedWithItself(IntKey(13), 16); }
    }
    ActsAsMapIff(ops);
  }

  lemma NotConfusedWithItself(k: Key, cap: nat)
    requires cap > 0
    ensures !Confused(k, k, cap)
  {
  }

  /**
   From an empty table on, any sequence of operations on integer and string keys, through
   every resize: the answers are the table's, which are a map's for callers whose keys
   have different names, and keys() lists the table's keys.
   */
  method Play(ops: seq<MapOp>, qsort: seq<Key> -> seq<Key>) returns (answers: seq<Answer>, keys: seq<Key>)
    requires SortsNames(qsort)
    ensures |answers| == |ops|
    ensures forall i :: 0 <= i < |ops| ==> answers[i] == TableAnswer(TableAfter(ops[..i]), ops[i])
    ensures ByName(keys, TableAfter(ops).contents.Keys)
    ensures NamesTell(TableAfter(ops).contents.Keys) ==> Canonical(keys, TableAfter(ops).contents.Keys)
    ensures Unharmed(ops) || NamesTell(Used(ops)) ==>
              && (forall i :: 0 <= i < |ops| ==> answers[i] == Answered(MapAfter(map[], ops[..i]), ops[i]))
              && ByName(keys, MapAfter(map[], ops).Keys)
  {
    hide *;
    NoneYet();
    var m := new RcMap();
    answers := [];
    var n := 0;
    while n < |ops|
      invariant n <= |ops| && |answers| == n
      invariant m.Valid() && Table(m.contents, m.buckets.Length) == TableAfter(ops[..n])
      invariant fresh(m) && fresh(m.buckets)
      invariant forall n :: n in AllNodes(m.chains) ==> fresh(n)
      invariant forall i :: 0 <= i < n ==> answers[i] == TableAnswer(TableAfter(ops[..i]), ops[i])
    {
      TableStep(ops, n);
      var a := One(m, ops[n]);
      answers := answers + [a];
      n := n + 1;
    }
    assert ops[..n] == ops;
    keys := m.KeysSorted(qsort);
    PlayedAsMap(ops, answers);
  }

  lemma NoneYet()
    ensures TableAfter([]) == Table(map[], 16)
  {
  }

  lemma PlayedAsMap(ops: seq<MapOp>, answers: seq<Answer>)
    requires |answers| == |ops|
    requires forall i :: 0 <= i < |ops| ==> answers[i] == TableAnswer(TableAfter(ops[..i]), ops[i])
    ensures Unharmed(ops) || NamesTell(Used(ops)) ==>
              && (forall i :: 0 <= i < |ops| ==> answers[i] == Answered(MapAfter(map[], ops[..i]), ops[i]))
              && TableAfter(ops).contents == MapAfter(map[], ops)
  {
    hide TableAnswer, TableAfter, Answered, MapAfter, NamesTell, Harmed;
    if Unharmed(ops) || NamesTell(Used(ops)) {
      if NamesTell(Used(ops)) {
        NamesTellUnharmed(ops);
      }
      ActsAsMapIff(ops);
      forall i | 0 <= i < |ops| ensures answers[i] == Answered(MapAfter(map[], ops[..i]), ops[i]) {
        assert ActsAt(ops, i);
      }
      SameContents(ops, |ops|);
      assert ops[..|ops|] == ops;
    }
  }

  lemma AfterNext(ops: seq<MapOp>, n: nat)
    requires n < |ops|
    ensures MapAfter(map[], ops[..n + 1]) == Applied(MapAfter(map[], ops[..n]), ops[n])
  {
    assert DropLast(ops[..n + 1]) == ops[..n];
  }

  method One(m: RcMap, op: MapOp) returns (a: Answer)
    requires m.Valid() && Sized(Table(m.contents, m.buckets.Length))
    modifies m, m.buckets, AllNodes(m.chains)
    ensures m.Valid()
    ensures Table(m.contents, m.buckets.Length) == TableNext(old(Table(m.contents, m.buckets.Length)), op)
    ensures a == TableAnswer(old(Table(m.contents, m.buckets.Length)), op)
    ensures fresh(m.buckets) || m.buckets == old(m.buckets)
    ensures forall n :: n in AllNodes(m.chains) ==> n in old(AllNodes(m.chains)) || fresh(n)
  {
    hide RcMap.Valid, AllNodes, Stand;
    a := Nothing;
    CountedKeys(m);
    match op
    case PutOp(k, v) => m.Set(k, v);
    case RemoveOp(k) => m.Remove(k);
    case GetOp(k) =>
      var v := m.Get(k);
      a := Got(v);
    case HasOp(k) =>
      var b := m.Has(k);
      a := Found(b);
  }

  lemma CountedKeys(m: RcMap)
    requires m.Valid()
    ensures |m.contents| == m.size && m.buckets.Length >= 16
  {
  }
}
