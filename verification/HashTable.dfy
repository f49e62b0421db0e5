/** A chained hash table that moves what it finds to the front (src/hash_table.c). */
module HashTable {
  import opened Bytes

  const NUM_BUCKETS := 3

  /** The bucket of a hash code: the code is signed, the number of buckets is not. */
  function Bucket(hc: int): (b: nat)
    ensures b < NUM_BUCKETS
  {
    hc % 0x1_0000_0000_0000_0000 % NUM_BUCKETS
  }

  datatype Item<K, V> = Key(key: K) | Value(value: V)

  class Node<K, V> {
    const hc: int
    const key: K
    var value: V
    var next: Node?<K, V>

    constructor (hc: int, key: K, value: V, next: Node?<K, V>)
      ensures this.hc == hc && this.key == key && this.value == value && this.next == next
    {
      this.hc, this.key, this.value, this.next := hc, key, value, next;
    }
  }

  /** The nodes reached from `head`, in order. */
  ghost predicate Linked<K, V>(chain: seq<Node<K, V>>, head: Node?<K, V>)
    reads chain`next
  {
    && head == At(chain, 0)
    && forall i :: 0 <= i < |chain| ==> chain[i].next == At(chain, i + 1)
  }

  /** The node at a place of a chain, null past its end. */
  ghost function At<K, V>(chain: seq<Node<K, V>>, i: nat): Node?<K, V> {
    if i < |chain| then chain[i] else null
  }

  ghost predicate Hashed<K, V>(chain: seq<Node<K, V>>, hash: K -> int, b: nat) {
    forall i :: 0 <= i < |chain| ==> chain[i].hc == hash(chain[i].key) && Bucket(chain[i].hc) == b
  }

  ghost predicate DistinctKeys<K, V>(chain: seq<Node<K, V>>) {
    forall i, j :: 0 <= i < j < |chain| ==> chain[i].key != chain[j].key
  }

  ghost predicate HasKey<K, V>(chain: seq<Node<K, V>>, k: K) {
    exists i :: 0 <= i < |chain| && chain[i].key == k
  }

  ghost predicate Agrees<K, V>(chain: seq<Node<K, V>>, contents: map<K, V>)
    reads chain`value
  {
    forall i :: 0 <= i < |chain| ==> chain[i].key in contents && contents[chain[i].key] == chain[i].value
  }

  /** The chains hold the map, each key once. */
  ghost predicate HoldsMap<K, V>(chains: seq<seq<Node<K, V>>>, hash: K -> int, contents: map<K, V>)
    requires |chains| == NUM_BUCKETS
    reads chains[0]`value, chains[1]`value, chains[2]`value
  {
    && (forall b :: 0 <= b < NUM_BUCKETS ==>
          Hashed(chains[b], hash, b) && DistinctKeys(chains[b]) && Agrees(chains[b], contents))
    && (forall k :: k in contents ==> HasKey(chains[Bucket(hash(k))], k))
    && |contents| == |chains[0]| + |chains[1]| + |chains[2]|
  }

  /** A finite map without one key. */
  function Without<K, V>(m: map<K, V>, k: K): (r: map<K, V>)
    ensures r.Keys == m.Keys - {k}
    ensures |r| == if k in m then |m| - 1 else |m|
  {
    var r := m - {k};
    assert r.Keys == m.Keys - {k};
    if k in m then
      assert |m.Keys - {k}| == |m.Keys| - 1;
      r
    else
      assert r == m;
      r
  }

  /** The keys of a chain, in order. */
  ghost function KeysOf<K, V>(chain: seq<Node<K, V>>): (s: seq<K>)
    ensures |s| == |chain|
  {
    seq(|chain|, i requires 0 <= i < |chain| => chain[i].key)
  }

  /** The link around a node leaves the others linked. */
  lemma DropLinked<K, V>(chain: seq<Node<K, V>>, i: nat, head: Node?<K, V>)
    requires i < |chain| && head == At(chain, if i == 0 then 1 else 0)
    requires forall j :: 0 <= j < |chain| ==> chain[j].next == At(chain, if j + 1 == i then i + 1 else j + 1)
    ensures Linked(Dropped(chain, i), head)
  {
  }

  lemma HashedDropped<K, V>(chain: seq<Node<K, V>>, hash: K -> int, b: nat, i: nat)
    requires i < |chain| && Hashed(chain, hash, b)
    ensures Hashed(Dropped(chain, i), hash, b)
  {
  }

  lemma InBucket<K, V>(chain: seq<Node<K, V>>, hash: K -> int, b: nat, i: nat)
    requires i < |chain| && Hashed(chain, hash, b)
    ensures Bucket(chain[i].hc) == b && chain[i].hc == hash(chain[i].key)
  {
  }

  lemma NotInBucket<K, V>(chain: seq<Node<K, V>>, hash: K -> int, b: nat, n: Node?<K, V>)
    requires Hashed(chain, hash, b) && (n == null || Bucket(n.hc) != b)
    ensures n !in chain
  {
  }

  class Table<K(==), V> {
    const hash: K -> int
    const buckets: array<Node?<K, V>>
    var numKeys: nat
    ghost var chains: seq<seq<Node<K, V>>>
    ghost var nodes: set<Node<K, V>>
    ghost var contents: map<K, V>

    ghost predicate Shape()
      reads `chains, `nodes
    {
      && buckets.Length == NUM_BUCKETS && |chains| == NUM_BUCKETS
      && (forall b, i :: 0 <= b < NUM_BUCKETS && 0 <= i < |chains[b]| ==> chains[b][i] in nodes)
    }

    /** The chains are linked from their buckets and hold what hashes to them. */
    ghost predicate Structure()
      reads `chains, `nodes, buckets, nodes`next
    {
      && Shape()
      && (forall b :: 0 <= b < NUM_BUCKETS ==> Linked(chains[b], buckets[b]) && Hashed(chains[b], hash, b))
    }

    /** The chains hold the map, each key once. */
    ghost predicate Valid()
      reads this, buckets, nodes
    {
      && Structure()
      && HoldsMap(chains, hash, contents)
      && numKeys == |contents|
    }

    constructor (hash: K -> int)
      ensures Valid() && fresh(buckets) && nodes == {}
      ensures this.hash == hash && contents == map[]
    {
      this.hash := hash;
      buckets := new Node?<K, V>[NUM_BUCKETS](_ => null);
      numKeys := 0;
      chains := [[], [], []];
      nodes := {};
      contents := map[];
    }

    /** Look for the entry of a key; `i` is its place in the chain. */
    method Find(key: K) returns (hc: int, b: nat, prev: Node?<K, V>, curr: Node?<K, V>, ghost i: nat)
      requires Structure()
      ensures hc == hash(key) && b == Bucket(hc)
      ensures i <= |chains[b]|
      ensures prev == if i == 0 then null else chains[b][i - 1]
      ensures curr == At(chains[b], i)
      ensures curr != null ==> curr.key == key
      ensures forall j :: 0 <= j < i ==> chains[b][j].key != key
    {
      hide Bucket;
      hc := hash(key);
      b := Bucket(hc);
      ghost var chain := chains[b];
      assert Linked(chain, buckets[b]) && Hashed(chain, hash, b);
      hide Structure;
      prev, curr, i := null, buckets[b], 0;
      while curr != null && !(curr.hc == hc && curr.key == key)
        invariant i <= |chain|
        invariant prev == if i == 0 then null else chain[i - 1]
        invariant curr == At(chain, i)
        invariant forall j :: 0 <= j < i ==> chain[j].key != key
        decreases |chain| - i
      {
        prev, curr, i := curr, curr.next, i + 1;
      }
    }

    /** Link around a node. */
    method Bypass(b: nat, prev: Node?<K, V>, curr: Node<K, V>, ghost i: nat)
      requires b < NUM_BUCKETS == buckets.Length && |chains| == NUM_BUCKETS
      requires Linked(chains[b], buckets[b]) && DistinctKeys(chains[b])
      requires i < |chains[b]| && curr == chains[b][i]
      requires prev == if i == 0 then null else chains[b][i - 1]
      modifies buckets, (if prev == null then {} else {prev})`next
      ensures Linked(Dropped(chains[b], i), buckets[b])
      ensures forall c :: 0 <= c < NUM_BUCKETS && c != b ==> buckets[c] == old(buckets[c])
    {
      if prev != null {
        prev.next := curr.next;
      } else {
        buckets[b] := curr.next;
      }
      DropLinked(chains[b], i, buckets[b]);
    }

    /** Take a node out of its chain. */
    method Unlink(b: nat, prev: Node?<K, V>, curr: Node<K, V>, ghost i: nat)
      requires b < NUM_BUCKETS && Structure()
      requires i < |chains[b]| && curr == chains[b][i] && DistinctKeys(chains[b])
      requires prev == if i == 0 then null else chains[b][i - 1]
      modifies `chains, buckets, nodes`next
      ensures Structure()
      ensures chains == old(chains)[b := Dropped(old(chains[b]), i)]
    {
      hide Linked, Hashed, DistinctKeys;
      assert Hashed(chains[b], hash, b);
      if prev != null {
        InBucket(chains[b], hash, b, i - 1);
      }
      forall c | 0 <= c < NUM_BUCKETS && c != b ensures prev !in chains[c] {
        assert Hashed(chains[c], hash, c);
        NotInBucket(chains[c], hash, c, prev);
      }
      Bypass(b, prev, curr, i);
      HashedDropped(chains[b], hash, b, i);
      chains := chains[b := Dropped(chains[b], i)];
    }

    /** Put a node that is in no chain at the front of its chain. */
    method PushFront(b: nat, node: Node<K, V>)
      requires b < NUM_BUCKETS && Structure()
      requires node.hc == hash(node.key) && Bucket(node.hc) == b && node !in chains[b]
      modifies `chains, `nodes, buckets, node`next
      ensures Structure() && nodes == old(nodes) + {node}
      ensures chains == old(chains)[b := [node] + old(chains[b])]
    {
      node.next := buckets[b];
      buckets[b] := node;
      chains := chains[b := [node] + chains[b]];
      nodes := nodes + {node};
      forall c | 0 <= c < NUM_BUCKETS
        ensures Linked(chains[c], buckets[c]) && Hashed(chains[c], hash, c)
      {
        assert old(Linked(chains[c], buckets[c])) && Hashed(old(chains[c]), hash, c);
      }
    }
    lemma Sizes()
      requires Structure()
      ensures |chains| == NUM_BUCKETS == buckets.Length
    {
    }

    lemma NodeAt(b: nat, i: nat)
      requires Structure() && b < NUM_BUCKETS == |chains| && i < |chains[b]|
      ensures chains[b][i] in nodes
      ensures chains[b][i].hc == hash(chains[b][i].key) && Bucket(chains[b][i].hc) == b
    {
    }

    lemma NotInChain(n: Node<K, V>, b: nat)
      requires Structure() && b < NUM_BUCKETS == |chains| && n !in nodes
      ensures n !in chains[b]
    {
    }

    /** Change the value of a node. */
    method SetValue(curr: Node<K, V>, value: V, ghost b: nat, ghost i: nat)
      requires Valid() && b < NUM_BUCKETS && i < |chains[b]| && curr == chains[b][i]
      modifies `contents, curr`value
      ensures Valid() && contents == old(contents)[curr.key := value]
    {
      hide Structure, Bucket, Hashed, DistinctKeys, Agrees, HasKey;
      Sizes();
      InBucket(chains[b], hash, b, i);
      InMap(chains[b], contents, i);
      ghost var m := contents;
      forall c | 0 <= c < NUM_BUCKETS && c != b ensures curr !in chains[c] {
        NotInBucket(chains[c], hash, c, curr);
      }
      SetField(chains[b], curr, value, i, contents);
      contents := contents[curr.key := value];
      forall c | 0 <= c < NUM_BUCKETS && c != b ensures Agrees(chains[c], contents) {
        ChainElsewhere(chains[c], hash, c, m, contents, curr.key);
      }
    }

    method SetField(ghost chain: seq<Node<K, V>>, curr: Node<K, V>, value: V, ghost i: nat, ghost m: map<K, V>)
      requires i < |chain| && curr == chain[i] && DistinctKeys(chain) && Agrees(chain, m)
      modifies curr`value
      ensures curr.value == value && Agrees(chain, m[curr.key := value])
    {
      curr.value := value;
    }

    /** Take an entry out of the table. */
    method Forget(b: nat, prev: Node?<K, V>, curr: Node<K, V>, ghost i: nat)
      requires Valid() && b < NUM_BUCKETS
      requires i < |chains[b]| && curr == chains[b][i] && curr.key in contents
      requires prev == if i == 0 then null else chains[b][i - 1]
      modifies `chains, `contents, `numKeys, buckets, nodes`next
      ensures Valid() && contents == Without(old(contents), curr.key)
    {
      hide Structure, HoldsMap, Bucket;
      Sizes();
      DistinctAt(chains, hash, contents, b);
      DropHolds(chains, hash, contents, b, i);
      Unlink(b, prev, curr, i);
      numKeys := numKeys - 1;
      contents := Without(contents, curr.key);
      Sizes();
    }

    /** Enter a new key. */
    method Enter(b: nat, curr: Node<K, V>)
      requires Valid() && b < NUM_BUCKETS && curr.hc == hash(curr.key) && Bucket(curr.hc) == b
      requires curr.key !in contents && curr !in nodes
      modifies this, buckets, curr`next
      ensures Valid() && contents == old(contents)[curr.key := curr.value] && nodes == old(nodes) + {curr}
    {
      hide Structure, HoldsMap, Bucket;
      Sizes();
      NotInChain(curr, b);
      PushHolds(chains, hash, contents, b, curr);
      PushFront(b, curr);
      numKeys := numKeys + 1;
      contents := contents[curr.key := curr.value];
      Sizes();
    }

    /** The value of a key; what is found moves to the front of its chain. */
    method Get(key: K) returns (value: Option<V>)
      requires Valid()
      modifies this, buckets, nodes
      ensures Valid() && contents == old(contents) && nodes == old(nodes)
      ensures value == if key in contents then Some(contents[key]) else None
      ensures key in contents ==> InFront(chains, hash, key)
    {
      hide Structure, HoldsMap, Bucket;
      Sizes();
      var _, b, prev, curr, i := Find(key);
      KeyAt(chains, hash, contents, b, i, key);
      if curr == null {
        return None;
      }
      NodeAt(b, i);
      if prev != null {
        DropHolds(chains, hash, contents, b, i);
        Unlink(b, prev, curr, i);
        Sizes();
        PushHolds(chains, hash, Without(contents, key), b, curr);
        PushFront(b, curr);
        assert Without(contents, key)[key := curr.value] == contents;
        assert nodes == old(nodes);
      }
      return Some(curr.value);
    }

    /** Forget a key; the result is the value it had. */
    method Remove(key: K) returns (value: Option<V>)
      requires Valid()
      modifies this, buckets, nodes
      ensures Valid() && contents == Without(old(contents), key) && nodes == old(nodes)
      ensures value == if key in old(contents) then Some(old(contents)[key]) else None
    {
      hide Structure, HoldsMap, Bucket;
      Sizes();
      var _, b, prev, curr, i := Find(key);
      KeyAt(chains, hash, contents, b, i, key);
      value := if curr != null then Some(curr.value) else None;
      if curr != null {
        Forget(b, prev, curr, i);
      } else {
        assert Without(contents, key) == contents;
      }
    }

    /** Store a value for a key, or forget the key when there is no value. */
    method Put(key: K, value: Option<V>) returns (was: Option<V>)
      requires Valid()
      modifies this, buckets, nodes
      ensures Valid() && fresh(nodes - old(nodes))
      ensures contents == if value.Some? then old(contents)[key := value.value] else Without(old(contents), key)
      ensures was == if key in old(contents) then Some(old(contents)[key]) else None
    {
      hide Structure, HoldsMap, Bucket;
      Sizes();
      var hc, b, prev, curr, i := Find(key);
      KeyAt(chains, hash, contents, b, i, key);
      was := if curr != null then Some(curr.value) else None;
      if curr != null {
        if value.Some? {
          NodeAt(b, i);
          SetValue(curr, value.value, b, i);
        } else {
          Forget(b, prev, curr, i);
        }
      } else if value.Some? {
        curr := new Node(hc, key, value.value, null);
        Enter(b, curr);
      } else {
        assert Without(contents, key) == contents;
      }
    }
    /** All keys or all values, ended by a null. */
    method GetAll(wantKey: bool) returns (all: array<Option<Item<K, V>>>, ghost keys: seq<K>)
      requires Valid()
      ensures fresh(all) && all.Length == numKeys + 1
      ensures |keys| == numKeys && Lists(keys, contents)
      ensures all[..] == Filled(keys, contents, wantKey, numKeys, numKeys + 1)
      ensures forall i, j :: 0 <= i < j < numKeys ==> keys[i] != keys[j]
      ensures forall k :: k in contents <==> k in keys
      ensures forall i :: 0 <= i < numKeys ==>
                keys[i] in contents && all[i] == Some(if wantKey then Key(keys[i]) else Value(contents[keys[i]]))
      ensures all[numKeys] == None
    {
      hide Structure, HoldsMap, Filled, Lists, Linked, Agrees, KeysOf, Listing;
      Sizes();
      keys := Listing(chains);
      ListingIsTheMap(chains, hash, contents);
      SizeOfMap(chains, hash, contents);
      ListingParts(chains);
      ChainFacts(0);
      ChainFacts(1);
      ChainFacts(2);
      all := new Option<Item<K, V>>[numKeys + 1](_ => None);
      NothingFilled(keys, contents, wantKey, all[..]);
      var tail := List(buckets[0], chains[0], wantKey, all, 0, keys, contents);
      tail := List(buckets[1], chains[1], wantKey, all, tail, keys, contents);
      tail := List(buckets[2], chains[2], wantKey, all, tail, keys, contents);
      FilledIs(keys, contents, wantKey, all[..]);
    }

    /** Forget everything. */
    method Clear()
      requires Valid()
      modifies this, buckets
      ensures Valid() && contents == map[]
    {
      hide Linked, HoldsMap, Structure, Agrees;
      Sizes();
      CountKeys();
      ChainFacts(0);
      ChainFacts(1);
      ChainFacts(2);
      Drain(0);
      Drain(1);
      Drain(2);
      assert forall b :: 0 <= b < NUM_BUCKETS ==> buckets[b] == null;
      Emptied();
    }

    /** With no node left the table is empty. */
    ghost method Emptied()
      requires buckets.Length == NUM_BUCKETS && numKeys == 0
      requires forall b :: 0 <= b < NUM_BUCKETS ==> buckets[b] == null
      modifies `chains, `contents, `nodes
      ensures Valid() && contents == map[]
    {
      hide Linked, HoldsMap, Hashed;
      chains, contents, nodes := [[], [], []], map[], {};
      NothingHeld(hash, contents);
      forall b | 0 <= b < NUM_BUCKETS ensures Linked(chains[b], buckets[b]) {
        NoLinks<K, V>();
      }
    }

    lemma CountKeys()
      requires Valid() && |chains| == NUM_BUCKETS
      ensures numKeys == |chains[0]| + |chains[1]| + |chains[2]|
    {
    }

    /** Free the nodes of one bucket. */
    method Drain(b: nat)
      requires b < buckets.Length && b < |chains| && Linked(chains[b], buckets[b]) && |chains[b]| <= numKeys
      modifies `numKeys, buckets
      ensures numKeys == old(numKeys) - |chains[b]|
      ensures buckets[b] == null && forall c :: 0 <= c < buckets.Length && c != b ==> buckets[c] == old(buckets[c])
    {
      var curr := buckets[b];
      ghost var i := 0;
      while curr != null
        invariant i <= |chains[b]| && curr == At(chains[b], i) && numKeys == old(numKeys) - i
        invariant forall c :: 0 <= c < buckets.Length ==> buckets[c] == old(buckets[c])
        decreases |chains[b]| - i
      {
        numKeys, curr, i := numKeys - 1, curr.next, i + 1;
      }
      buckets[b] := null;
    }

    lemma ChainFacts(b: nat)
      requires Valid() && b < NUM_BUCKETS == |chains|
      ensures buckets.Length == NUM_BUCKETS && Linked(chains[b], buckets[b]) && Agrees(chains[b], contents)
    {
      hide Linked, Agrees;
    }
  }

  lemma NoLinks<K, V>()
    ensures Linked<K, V>([], null)
  {
  }

  lemma NothingHeld<K, V>(hash: K -> int, m: map<K, V>)
    requires m == map[]
    ensures HoldsMap<K, V>([[], [], []], hash, m)
    ensures forall b :: 0 <= b < NUM_BUCKETS ==> Hashed<K, V>([], hash, b)
  {
  }

  lemma ListingParts<K, V>(chains: seq<seq<Node<K, V>>>)
    requires |chains| == NUM_BUCKETS
    ensures var keys := Listing(chains);
            var a, b := |chains[0]|, |chains[0]| + |chains[1]|;
            && |keys| == b + |chains[2]|
            && keys[0..a] == KeysOf(chains[0]) && keys[a..b] == KeysOf(chains[1])
            && keys[b..b + |chains[2]|] == KeysOf(chains[2])
  {
  }

  /** List one chain at the tail. */
  method List<K, V>(head: Node?<K, V>, ghost chain: seq<Node<K, V>>, wantKey: bool,
                    all: array<Option<Item<K, V>>>, tail: nat, ghost keys: seq<K>, ghost m: map<K, V>)
    returns (tail': nat)
    requires Linked(chain, head) && Agrees(chain, m)
    requires tail + |chain| <= |keys| < all.Length
    requires keys[tail..tail + |chain|] == KeysOf(chain)
    requires Lists(keys, m)
    requires all[..] == Filled(keys, m, wantKey, tail, all.Length)
    modifies all
    ensures tail' == tail + |chain|
    ensures all[..] == Filled(keys, m, wantKey, tail', all.Length)
  {
    hide Filled, Linked, Agrees, Lists;
    tail' := tail;
    var curr := head;
    ghost var i := 0;
    FirstOf(chain, head);
    while curr != null
      invariant i <= |chain| && curr == At(chain, i) && tail' == tail + i
      invariant all[..] == Filled(keys, m, wantKey, tail', all.Length)
      decreases |chain| - i
    {
      assert keys[tail'] == curr.key by {
        assert keys[tail..tail + |chain|][i] == KeysOf(chain)[i];
      }
      NextOf(chain, head, m, i);
      OneMore(keys, m, wantKey, tail', all.Length);
      Assign(all, tail', Some(if wantKey then Key(curr.key) else Value(curr.value)));
      tail', i := tail' + 1, i + 1;
      curr := curr.next;
    }
  }

  method Assign<X>(a: array<X>, i: nat, x: X)
    requires i < a.Length
    modifies a
    ensures a[..] == old(a[..])[i := x]
  {
    a[i] := x;
  }

  lemma FirstOf<K, V>(chain: seq<Node<K, V>>, head: Node?<K, V>)
    requires Linked(chain, head)
    ensures head == At(chain, 0)
  {
  }

  lemma NextOf<K, V>(chain: seq<Node<K, V>>, head: Node?<K, V>, m: map<K, V>, i: nat)
    requires Linked(chain, head) && Agrees(chain, m) && i < |chain|
    ensures chain[i].next == At(chain, i + 1)
    ensures chain[i].key in m && m[chain[i].key] == chain[i].value
  {
  }

  /** The array of `GetAll` with `tail` entries listed. */
  ghost function Filled<K, V>(keys: seq<K>, m: map<K, V>, wantKey: bool, tail: nat, size: nat)
    : (s: seq<Option<Item<K, V>>>)
    requires tail <= |keys| && Lists(keys, m)
    ensures |s| == size
  {
    seq(size, i requires 0 <= i < size =>
      if i < tail then Some(Listed(keys[i], m, wantKey)) else None)
  }

  lemma FilledIs<K, V>(keys: seq<K>, m: map<K, V>, wantKey: bool, all: seq<Option<Item<K, V>>>)
    requires Lists(keys, m) && all == Filled(keys, m, wantKey, |keys|, |keys| + 1)
    ensures forall i, j :: 0 <= i < j < |keys| ==> keys[i] != keys[j]
    ensures forall k :: k in m <==> k in keys
    ensures forall i :: 0 <= i < |keys| ==>
              keys[i] in m && all[i] == Some(if wantKey then Key(keys[i]) else Value(m[keys[i]]))
    ensures all[|keys|] == None
  {
  }

  lemma NothingFilled<K, V>(keys: seq<K>, m: map<K, V>, wantKey: bool, s: seq<Option<Item<K, V>>>)
    requires Lists(keys, m)
    requires forall i :: 0 <= i < |s| ==> s[i] == None
    ensures s == Filled(keys, m, wantKey, 0, |s|)
  {
  }

  lemma OneMore<K, V>(keys: seq<K>, m: map<K, V>, wantKey: bool, tail: nat, size: nat)
    requires tail < |keys| < size && Lists(keys, m)
    ensures Filled(keys, m, wantKey, tail, size)[tail := Some(Listed(keys[tail], m, wantKey))]
         == Filled(keys, m, wantKey, tail + 1, size)
  {
  }

  /** What `GetAll` lists for a key. */
  function Listed<K, V>(k: K, m: map<K, V>, wantKey: bool): Item<K, V>
    requires k in m
  {
    if wantKey then Key(k) else Value(m[k])
  }

  /** All the keys, bucket by bucket. */
  ghost function Listing<K, V>(chains: seq<seq<Node<K, V>>>): seq<K>
    requires |chains| == NUM_BUCKETS
  {
    KeysOf(chains[0]) + KeysOf(chains[1]) + KeysOf(chains[2])
  }

  ghost predicate NoRepeats<K>(s: seq<K>) {
    forall i, j :: 0 <= i < j < |s| ==> s[i] != s[j]
  }

  /** All keys of the map, each of them once. */
  ghost predicate Lists<K, V>(keys: seq<K>, m: map<K, V>) {
    && NoRepeats(keys) && |keys| == |m|
    && (forall k :: k in keys ==> k in m)
    && (forall k :: k in m ==> k in keys)
  }

  /** The keys bucket by bucket are the keys of the map, each of them once. */
  lemma ListingIsTheMap<K, V>(chains: seq<seq<Node<K, V>>>, hash: K -> int, contents: map<K, V>)
    requires |chains| == NUM_BUCKETS && HoldsMap(chains, hash, contents)
    ensures Lists(Listing(chains), contents)
  {
    hide Bucket, HoldsMap, Agrees, Hashed, DistinctKeys, HasKey, NoRepeats;
    var a, b, c := KeysOf(chains[0]), KeysOf(chains[1]), KeysOf(chains[2]);
    forall d | 0 <= d < NUM_BUCKETS
      ensures NoRepeats(KeysOf(chains[d]))
      ensures forall k :: k in KeysOf(chains[d]) <==> k in contents && Bucket(hash(k)) == d
    {
      ChainIsItsPart(chains, hash, contents, d);
    }
    JoinedNoRepeats(a, b);
    JoinedNoRepeats(a + b, c);
    forall k ensures k in Listing(chains) <==> k in contents {
      assert k in Listing(chains) <==> k in a || k in b || k in c;
    }
    SizeOfMap(chains, hash, contents);
  }

  lemma SizeOfMap<K, V>(chains: seq<seq<Node<K, V>>>, hash: K -> int, contents: map<K, V>)
    requires |chains| == NUM_BUCKETS && HoldsMap(chains, hash, contents)
    ensures |Listing(chains)| == |contents|
  {
  }

  lemma JoinedNoRepeats<K>(a: seq<K>, b: seq<K>)
    requires NoRepeats(a) && NoRepeats(b) && forall k :: k in a ==> k !in b
    ensures NoRepeats(a + b)
  {
    var s := a + b;
    forall i, j | 0 <= i < j < |s| ensures s[i] != s[j] {
      if i < |a| <= j {
        assert s[i] in a && s[j] in b;
      }
    }
  }

  /** A chain has exactly the keys of the map that hash to it. */
  lemma ChainIsItsPart<K, V>(chains: seq<seq<Node<K, V>>>, hash: K -> int, contents: map<K, V>, d: nat)
    requires |chains| == NUM_BUCKETS && HoldsMap(chains, hash, contents) && d < NUM_BUCKETS
    ensures NoRepeats(KeysOf(chains[d]))
    ensures forall k :: k in KeysOf(chains[d]) <==> k in contents && Bucket(hash(k)) == d
  {
    hide Bucket;
    var keys := KeysOf(chains[d]);
    assert Hashed(chains[d], hash, d) && DistinctKeys(chains[d]) && Agrees(chains[d], contents);
    forall k | k in contents && Bucket(hash(k)) == d ensures k in keys {
      assert HasKey(chains[d], k);
      var j :| 0 <= j < |chains[d]| && chains[d][j].key == k;
      assert keys[j] == k;
    }
  }

  /** Nothing but the value of key `k`, if that, tells the two maps apart. */
  ghost predicate SameElsewhere<K, V>(m: map<K, V>, m': map<K, V>, k: K) {
    && m.Keys - {k} == m'.Keys - {k}
    && forall x :: x in m && x != k ==> x in m' && m[x] == m'[x]
  }

  lemma ChainElsewhere<K, V>(chain: seq<Node<K, V>>, hash: K -> int, c: nat, m: map<K, V>, m': map<K, V>, k: K)
    requires Hashed(chain, hash, c) && Bucket(hash(k)) != c
    requires Agrees(chain, m) && SameElsewhere(m, m', k)
    ensures Agrees(chain, m')
  {
  }

  lemma ChainDropped<K, V>(chain: seq<Node<K, V>>, hash: K -> int, b: nat, m: map<K, V>, i: nat)
    requires i < |chain| && Hashed(chain, hash, b) && DistinctKeys(chain) && Agrees(chain, m)
    ensures var r := Dropped(chain, i);
            Hashed(r, hash, b) && DistinctKeys(r) && Agrees(r, Without(m, chain[i].key))
  {
  }

  lemma ChainPushed<K, V>(chain: seq<Node<K, V>>, hash: K -> int, b: nat, m: map<K, V>, n: Node<K, V>)
    requires Hashed(chain, hash, b) && DistinctKeys(chain) && Agrees(chain, m)
    requires n.hc == hash(n.key) && Bucket(n.hc) == b && n.key !in m
    ensures var r := [n] + chain;
            Hashed(r, hash, b) && DistinctKeys(r) && Agrees(r, m[n.key := n.value])
  {
  }

  lemma KeyKept<K, V>(chain: seq<Node<K, V>>, i: nat, k: K)
    requires i < |chain| && HasKey(chain, k) && chain[i].key != k
    ensures HasKey(Dropped(chain, i), k)
  {
    var j :| 0 <= j < |chain| && chain[j].key == k;
    assert Dropped(chain, i)[if j < i then j else j - 1].key == k;
  }

  lemma KeyPushed<K, V>(chain: seq<Node<K, V>>, n: Node<K, V>, k: K)
    requires HasKey(chain, k) || n.key == k
    ensures HasKey([n] + chain, k)
  {
    if n.key == k {
      assert ([n] + chain)[0].key == k;
    } else {
      var j :| 0 <= j < |chain| && chain[j].key == k;
      assert ([n] + chain)[j + 1].key == k;
    }
  }

  /** Without a node the chains hold the map without its key. */
  lemma DropHolds<K, V>(chains: seq<seq<Node<K, V>>>, hash: K -> int, contents: map<K, V>, b: nat, i: nat)
    requires |chains| == NUM_BUCKETS && HoldsMap(chains, hash, contents)
    requires b < NUM_BUCKETS && i < |chains[b]|
    ensures HoldsMap(chains[b := Dropped(chains[b], i)], hash, Without(contents, chains[b][i].key))
  {
    hide Bucket, Hashed, DistinctKeys, Agrees, HasKey;
    var chains' := chains[b := Dropped(chains[b], i)];
    var m := Without(contents, chains[b][i].key);
    InMap(chains[b], contents, i);
    ChainsDropped(chains, hash, contents, b, i);
    forall x | x in m ensures HasKey(chains'[Bucket(hash(x))], x) {
      if Bucket(hash(x)) == b {
        KeyKept(chains[b], i, x);
      }
    }
  }

  lemma ChainsDropped<K, V>(chains: seq<seq<Node<K, V>>>, hash: K -> int, contents: map<K, V>, b: nat, i: nat)
    requires |chains| == NUM_BUCKETS && HoldsMap(chains, hash, contents)
    requires b < NUM_BUCKETS && i < |chains[b]|
    ensures var chains', m := chains[b := Dropped(chains[b], i)], Without(contents, chains[b][i].key);
            forall c :: 0 <= c < NUM_BUCKETS ==>
              Hashed(chains'[c], hash, c) && DistinctKeys(chains'[c]) && Agrees(chains'[c], m)
  {
    hide Bucket, Hashed, DistinctKeys, Agrees, HasKey;
    var chains' := chains[b := Dropped(chains[b], i)];
    var k := chains[b][i].key;
    var m := Without(contents, k);
    InBucket(chains[b], hash, b, i);
    InMap(chains[b], contents, i);
    forall c | 0 <= c < NUM_BUCKETS
      ensures Hashed(chains'[c], hash, c) && DistinctKeys(chains'[c]) && Agrees(chains'[c], m)
    {
      if c == b {
        ChainDropped(chains[b], hash, b, contents, i);
      } else {
        ChainElsewhere(chains[c], hash, c, contents, m, k);
      }
    }
  }

  lemma DistinctAt<K, V>(chains: seq<seq<Node<K, V>>>, hash: K -> int, contents: map<K, V>, b: nat)
    requires |chains| == NUM_BUCKETS && HoldsMap(chains, hash, contents) && b < NUM_BUCKETS
    ensures DistinctKeys(chains[b])
  {
  }

  lemma InMap<K, V>(chain: seq<Node<K, V>>, m: map<K, V>, i: nat)
    requires i < |chain| && Agrees(chain, m)
    ensures chain[i].key in m
  {
  }

  /** With a new node the chains hold the map with its key. */
  lemma PushHolds<K, V>(chains: seq<seq<Node<K, V>>>, hash: K -> int, contents: map<K, V>, b: nat, n: Node<K, V>)
    requires |chains| == NUM_BUCKETS && HoldsMap(chains, hash, contents)
    requires b < NUM_BUCKETS && n.hc == hash(n.key) && Bucket(n.hc) == b && n.key !in contents
    ensures HoldsMap(chains[b := [n] + chains[b]], hash, contents[n.key := n.value])
  {
    hide Bucket, Hashed, DistinctKeys, Agrees, HasKey;
    var chains' := chains[b := [n] + chains[b]];
    var m := contents[n.key := n.value];
    forall c | 0 <= c < NUM_BUCKETS
      ensures Hashed(chains'[c], hash, c) && DistinctKeys(chains'[c]) && Agrees(chains'[c], m)
    {
      if c == b {
        ChainPushed(chains[b], hash, b, contents, n);
      } else {
        ChainElsewhere(chains[c], hash, c, contents, m, n.key);
      }
    }
    forall x | x in m ensures HasKey(chains'[Bucket(hash(x))], x) {
      if Bucket(hash(x)) == b {
        KeyPushed(chains[b], n, x);
      }
    }
  }

  /** The key leads its chain. */
  ghost predicate InFront<K, V>(chains: seq<seq<Node<K, V>>>, hash: K -> int, k: K) {
    var b := Bucket(hash(k));
    b < |chains| && chains[b] != [] && chains[b][0].key == k
  }

  /** Where `Find` stops tells whether the map has the key. */
  lemma KeyAt<K, V>(chains: seq<seq<Node<K, V>>>, hash: K -> int, contents: map<K, V>, b: nat, i: nat, key: K)
    requires |chains| == NUM_BUCKETS && HoldsMap(chains, hash, contents)
    requires b == Bucket(hash(key)) && i <= |chains[b]|
    requires forall j :: 0 <= j < i ==> chains[b][j].key != key
    requires i < |chains[b]| ==> chains[b][i].key == key
    ensures DistinctKeys(chains[b])
    ensures key in contents <==> i < |chains[b]|
    ensures key in contents ==> contents[key] == chains[b][i].value
  {
    hide Bucket;
    assert Agrees(chains[b], contents);
  }

  /** A chain without the node at place `i`. */
  ghost function Dropped<K, V>(chain: seq<Node<K, V>>, i: nat): (r: seq<Node<K, V>>)
    requires i < |chain|
    ensures |r| == |chain| - 1
    ensures forall j :: 0 <= j < |r| ==> r[j] == chain[if j < i then j else j + 1]
  {
    chain[..i] + chain[i + 1..]
  }
}
