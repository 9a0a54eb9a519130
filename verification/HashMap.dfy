/** The chained hash table of lib/hash.h: buckets of nodes linked by next, proved to be a
    finite map. */
module HashMap {
  import opened Machine

  class HashNode<V> {
    const key: int
    var value: V
    var next: HashNode?<V>

    constructor (k: int, v: V)
      ensures key == k && value == v && next == null
    {
      key, value, next := k, v, null;
    }
  }

  /** static_cast<unsigned long>(key) % tableSize */
  function KeyHash(key: int, tableSize: nat): (h: nat)
    requires tableSize > 0
    ensures h < tableSize
  {
    Wrap(key) % tableSize
  }

  /** The remainder of the key as an unsigned number: a negative one counts from 2^64 down. */
  lemma HashIsRemainder(key: int, tableSize: nat) returns (q: nat)
    requires tableSize > 0 && -0x8000_0000_0000_0000 <= key < 0x1_0000_0000_0000_0000
    ensures (if key < 0 then key + 0x1_0000_0000_0000_0000 else key) == q * tableSize + KeyHash(key, tableSize)
  {
    q := Wrap(key) / tableSize;
  }

  ghost function At<V>(chain: seq<HashNode<V>>, i: int): HashNode?<V> {
    if 0 <= i < |chain| then chain[i] else null
  }

  ghost function Node<V>(n: HashNode?<V>): set<HashNode<V>> {
    if n == null then {} else {n}
  }

  /** next runs along the chain to null: the chain is acyclic. */
  ghost predicate Linked<V>(chain: seq<HashNode<V>>)
    reads chain`next
  {
    forall i {:trigger chain[i].next} | 0 <= i < |chain| :: chain[i].next == At(chain, i + 1)
  }

  /** A chain of bucket b: its keys hash there, and each is in it once. */
  ghost predicate Keyed<V>(chain: seq<HashNode<V>>, b: nat, size: nat)
    requires size > 0
  {
    && (forall n | n in chain :: KeyHash(n.key, size) == b)
    && (forall i, j | 0 <= i < j < |chain| :: chain[i].key != chain[j].key)
  }

  /** The chain's part of the map. */
  ghost predicate Stores<V>(chain: seq<HashNode<V>>, contents: map<int, V>)
    reads chain`value
  {
    forall n | n in chain :: n.key in contents && n.value == contents[n.key]
  }

  ghost predicate HasKey<V>(chain: seq<HashNode<V>>, key: int) {
    exists n :: n in chain && n.key == key
  }

  /** The buckets together hold the map: every key of it once, in its own bucket, with its
      value. */
  ghost predicate Maps<V>(chains: seq<seq<HashNode<V>>>, nodes: set<HashNode<V>>, contents: map<int, V>)
    reads nodes`value
  {
    && (forall b | 0 <= b < |chains| :: forall n | n in chains[b] :: n in nodes)
    && (forall b | 0 <= b < |chains| :: Keyed(chains[b], b, |chains|))
    && (forall b | 0 <= b < |chains| :: Stores(chains[b], contents))
    && (|chains| > 0 ==> forall k | k in contents :: HasKey(chains[KeyHash(k, |chains|)], k))
  }

  ghost function Home<V>(chains: seq<seq<HashNode<V>>>, key: int): seq<HashNode<V>>
    requires |chains| > 0
  {
    chains[KeyHash(key, |chains|)]
  }

  lemma MapsIff<V>(chains: seq<seq<HashNode<V>>>, nodes: set<HashNode<V>>, contents: map<int, V>, key: int)
    requires |chains| > 0 && Maps(chains, nodes, contents)
    ensures key in contents <==> HasKey(Home(chains, key), key)
    ensures forall n | n in Home(chains, key) && n.key == key :: n.value == contents[key]
  {
    hide Keyed;
    assert Stores(Home(chains, key), contents);
  }

  /** Only the key's own bucket can hold it. */
  lemma ElsewhereNoKey<V>(chain: seq<HashNode<V>>, c: nat, size: nat, key: int)
    requires size > 0 && Keyed(chain, c, size) && c != KeyHash(key, size)
    ensures !HasKey(chain, key)
  {
  }

  lemma StoresOthers<V>(chain: seq<HashNode<V>>, contents: map<int, V>, key: int, value: V)
    requires Stores(chain, contents) && !HasKey(chain, key)
    ensures Stores(chain, contents[key := value]) && Stores(chain, contents - {key})
  {
  }

  lemma KeyedAppend<V>(chain: seq<HashNode<V>>, n: HashNode<V>, size: nat)
    requires size > 0 && Keyed(chain, KeyHash(n.key, size), size) && !HasKey(chain, n.key)
    ensures Keyed(chain + [n], KeyHash(n.key, size), size)
  {
    assert forall j | 0 <= j < |chain| :: chain[j] in chain;
  }

  lemma MapsAppend<V>(chains: seq<seq<HashNode<V>>>, nodes: set<HashNode<V>>, contents: map<int, V>,
                      n: HashNode<V>)
    requires |chains| > 0 && Maps(chains, nodes, contents) && !HasKey(Home(chains, n.key), n.key)
    ensures var b := KeyHash(n.key, |chains|);
            Maps(chains[b := chains[b] + [n]], nodes + {n}, contents[n.key := n.value])
  {
    hide Keyed, Stores, HasKey;
    var size, b := |chains|, KeyHash(n.key, |chains|);
    var longer, more := chains[b := chains[b] + [n]], contents[n.key := n.value];
    KeyedAppend(chains[b], n, size);
    forall c | 0 <= c < size ensures Stores(longer[c], more) {
      assert Stores(chains[c], contents) && Keyed(chains[c], c, size);
      if c != b {
        ElsewhereNoKey(chains[c], c, size, n.key);
      }
      StoresOthers(chains[c], contents, n.key, n.value);
      if c == b {
        StoresAppend(chains[b], more, n);
      }
    }
    forall k | k in more ensures HasKey(Home(longer, k), k) {
      HasKeyAppend(chains[b], n, k);
    }
  }

  lemma StoresAppend<V>(chain: seq<HashNode<V>>, contents: map<int, V>, n: HashNode<V>)
    requires Stores(chain, contents) && n.key in contents && n.value == contents[n.key]
    ensures Stores(chain + [n], contents)
  {
  }

  lemma HasKeyAppend<V>(chain: seq<HashNode<V>>, n: HashNode<V>, key: int)
    ensures HasKey(chain + [n], n.key)
    ensures HasKey(chain, key) ==> HasKey(chain + [n], key)
  {
    assert n in chain + [n];
    assert forall m | m in chain :: m in chain + [n];
  }

  /** What is left of a chain without its i-th node. */
  ghost function Without<V>(chain: seq<HashNode<V>>, i: nat): seq<HashNode<V>>
    requires i < |chain|
  {
    chain[..i] + chain[i + 1..]
  }

  lemma KeyedWithout<V>(chain: seq<HashNode<V>>, i: nat, b: nat, size: nat)
    requires size > 0 && i < |chain| && Keyed(chain, b, size)
    ensures Keyed(Without(chain, i), b, size) && !HasKey(Without(chain, i), chain[i].key)
    ensures forall key | key != chain[i].key && HasKey(chain, key) :: HasKey(Without(chain, i), key)
  {
    var rest := Without(chain, i);
    assert forall j | 0 <= j < |rest| :: rest[j] == chain[if j < i then j else j + 1];
    forall key | key != chain[i].key && HasKey(chain, key) ensures HasKey(rest, key) {
      var k :| 0 <= k < |chain| && chain[k].key == key;
      assert rest[if k < i then k else k - 1].key == key;
    }
  }

  lemma StoresWithout<V>(chain: seq<HashNode<V>>, i: nat, contents: map<int, V>)
    requires i < |chain| && Stores(chain, contents)
    ensures Stores(Without(chain, i), contents)
  {
  }

  lemma MapsWithout<V>(chains: seq<seq<HashNode<V>>>, nodes: set<HashNode<V>>, contents: map<int, V>,
                       b: nat, i: nat)
    requires b < |chains| && Maps(chains, nodes, contents) && i < |chains[b]|
    ensures Maps(chains[b := Without(chains[b], i)], nodes, contents - {chains[b][i].key})
  {
    hide Keyed, Stores, HasKey;
    var size, key := |chains|, chains[b][i].key;
    var shorter, less := chains[b := Without(chains[b], i)], contents - {key};
    KeyedWithout(chains[b], i, b, size);
    KeyedAt(chains[b], i, b, size);
    forall c | 0 <= c < size ensures Stores(shorter[c], less) {
      assert Stores(chains[c], contents) && Keyed(chains[c], c, size);
      if c == b {
        StoresWithout(chains[b], i, contents);
      } else {
        ElsewhereNoKey(chains[c], c, size, key);
      }
      StoresOthers(shorter[c], contents, key, chains[b][i].value);
    }
  }

  lemma LinkedSingle<V>(n: HashNode<V>)
    requires n.next == null
    ensures Linked([n])
  {
  }

  lemma HasKeyIn<V>(chain: seq<HashNode<V>>, n: HashNode<V>)
    requires n in chain
    ensures HasKey(chain, n.key)
  {
  }

  lemma LinkedFrom<V>(chain: seq<HashNode<V>>, i: nat)
    requires i < |chain| && Linked(chain)
    ensures Linked(chain[i + 1..]) && chain[i].next == At(chain[i + 1..], 0)
  {
    var rest := chain[i + 1..];
    forall j {:trigger rest[j].next} | 0 <= j < |rest| ensures rest[j].next == At(rest, j + 1) {
      assert chain[i + 1 + j].next == At(chain, i + 2 + j);
    }
  }

  lemma KeyedAt<V>(chain: seq<HashNode<V>>, i: nat, b: nat, size: nat)
    requires size > 0 && i < |chain| && Keyed(chain, b, size)
    ensures KeyHash(chain[i].key, size) == b
  {
    assert chain[i] in chain;
  }

  /** Chains share no nodes. */
  lemma OnOneChain<V>(n: HashNode<V>, mine: seq<HashNode<V>>, b: nat, other: seq<HashNode<V>>, c: nat, size: nat)
    requires size > 0 && b != c && Keyed(mine, b, size) && Keyed(other, c, size) && n in mine
    ensures n !in other
  {
  }

  class UnorderedMap<V> {
    const tableSize: nat
    const table: array<HashNode?<V>>
    ghost var chains: seq<seq<HashNode<V>>>
    ghost var nodes: set<HashNode<V>>
    ghost var contents: map<int, V>

    ghost predicate Valid()
      reads this, table, nodes
    {
      && tableSize > 0 && table.Length == tableSize == |chains|
      && Maps(chains, nodes, contents)
      && (forall b | 0 <= b < |chains| :: table[b] == At(chains[b], 0))
      && (forall b | 0 <= b < |chains| :: Linked(chains[b]))
    }

    constructor (size: nat)
      requires size > 0
      ensures fresh(table) && tableSize == size && nodes == {} && contents == map[]
      ensures Valid()
    {
      tableSize := size;
      table := new HashNode?<V>[size](_ => null);
      chains := seq(size, i => []);
      nodes, contents := {}, map[];
    }

    /** The walk all three operations make: the node with the key and the one before it. */
    method Locate(key: int, ghost chain: seq<HashNode<V>>)
      returns (prev: HashNode?<V>, entry: HashNode?<V>, ghost i: nat)
      requires tableSize > 0 && table.Length == tableSize
      requires table[KeyHash(key, tableSize)] == At(chain, 0) && Linked(chain)
      ensures i <= |chain| && entry == At(chain, i) && prev == At(chain, i - 1)
      ensures entry == null <==> !HasKey(chain, key)
      ensures entry != null ==> entry in chain && entry.key == key
      ensures entry == null ==> i == |chain|
    {
      prev, i := null, 0;
      entry := table[KeyHash(key, tableSize)];
      while entry != null && entry.key != key
        invariant i <= |chain| && entry == At(chain, i) && prev == At(chain, i - 1)
        invariant forall j | 0 <= j < i :: chain[j].key != key
        decreases |chain| - i
      {
        prev := entry;
        entry := entry.next;
        i := i + 1;
      }
    }

    method Get(key: int) returns (value: Option<V>)
      requires Valid()
      ensures value == if key in contents then Some(contents[key]) else None
    {
      hide Maps, Linked, HasKey;
      var _, entry, i := Locate(key, Home(chains, key));
      MapsIff(chains, nodes, contents, key);
      value := if entry == null then None else Some(entry.value);
    }

    /** The link into position i of the chain, in the bucket or in the node before, now
        leads to rest. */
    method Redirect(ghost chain: seq<HashNode<V>>, ghost i: nat, ghost rest: seq<HashNode<V>>,
                    b: nat, prev: HashNode?<V>, target: HashNode?<V>)
      requires b < table.Length && table[b] == At(chain, 0)
      requires i <= |chain| && prev == At(chain, i - 1) && target == At(rest, 0)
      requires Linked(chain) && Linked(rest) && prev !in rest
      requires forall j, k | 0 <= j < k < |chain| :: chain[j].key != chain[k].key
      modifies table, Node(prev)`next
      ensures table[b] == At(chain[..i] + rest, 0)
      ensures forall c | 0 <= c < table.Length && c != b :: table[c] == old(table[c])
      ensures Linked(chain[..i] + rest)
    {
      ghost var all := chain[..i] + rest;
      if prev == null {
        table[b] := target;
        assert all == rest;
      } else {
        prev.next := target;
        forall j {:trigger all[j].next} | 0 <= j < |all| ensures all[j].next == At(all, j + 1) {
          if j < i {
            assert old(chain[j].next) == At(chain, j + 1);
          } else {
            assert rest[j - i].next == At(rest, j - i + 1);
          }
        }
      }
    }

    /** The node before belongs to this bucket alone, and no key is in a bucket twice. */
    lemma PrevIsOfItsBucket(b: nat, prev: HashNode?<V>)
      requires Valid() && b < |chains| && (prev != null ==> prev in chains[b])
      ensures prev != null ==> prev in nodes && forall c | 0 <= c < |chains| && c != b :: prev !in chains[c]
      ensures forall j, k | 0 <= j < k < |chains[b]| :: chains[b][j].key != chains[b][k].key
    {
      hide Stores, Linked, HasKey;
      assert Keyed(chains[b], b, |chains|);
      forall c | prev != null && 0 <= c < |chains| && c != b ensures prev !in chains[c] {
        OnOneChain(prev, chains[b], b, chains[c], c, |chains|);
      }
    }

    method Put(key: int, value: V)
      requires Valid()
      modifies this`chains, this`nodes, this`contents, table, nodes
      ensures contents == old(contents)[key := value] && fresh(nodes - old(nodes))
      ensures Valid()
    {
      hide Maps, Linked, HasKey;
      var prev, entry, i := Locate(key, Home(chains, key));
      PrevIsOfItsBucket(KeyHash(key, tableSize), prev);
      PrevIsOfItsBucket(KeyHash(key, tableSize), entry);
      if entry == null {
        entry := new HashNode<V>(key, value);
        Append(entry, prev);
      } else {
        SetValue(key, value, entry);
      }
    }

    /** A new node at the end of its key's chain. */
    method Append(entry: HashNode<V>, prev: HashNode?<V>)
      requires Valid() && !HasKey(Home(chains, entry.key), entry.key)
      requires prev == At(Home(chains, entry.key), |Home(chains, entry.key)| - 1)
      requires entry !in nodes && entry.next == null
      modifies this`chains, this`nodes, this`contents, table, Node(prev)`next
      ensures contents == old(contents)[entry.key := entry.value] && nodes == old(nodes) + {entry}
      ensures Valid()
    {
      hide Maps, Linked, HasKey;
      var hashValue := KeyHash(entry.key, tableSize);
      ghost var chain := chains[hashValue];
      PrevIsOfItsBucket(hashValue, prev);
      MapsAppend(chains, nodes, contents, entry);
      assert chain[..|chain|] == chain;
      LinkedSingle(entry);
      Redirect(chain, |chain|, [entry], hashValue, prev, entry);
      chains := chains[hashValue := chain + [entry]];
      nodes := nodes + {entry};
      contents := contents[entry.key := entry.value];
    }

    /** setValue on the node that has the key. */
    method SetValue(key: int, value: V, entry: HashNode<V>)
      requires Valid() && entry in Home(chains, key) && entry.key == key
      modifies this`contents, entry`value
      ensures contents == old(contents)[key := value]
      ensures Valid()
    {
      hide Keyed, Linked, HasKey;
      ghost var before, b := contents, KeyHash(key, tableSize);
      HoldsOnce(entry);
      MapsIff(chains, nodes, contents, key);
      HasKeyIn(chains[b], entry);
      entry.value := value;
      contents := before[key := value];
      forall c | 0 <= c < |chains| ensures Stores(chains[c], contents) && Linked(chains[c]) {
        assert old(Stores(chains[c], contents)) && old(Linked(chains[c]));
      }
    }

    lemma HoldsOnce(entry: HashNode<V>)
      requires Valid() && entry in Home(chains, entry.key)
      ensures forall c, n | 0 <= c < |chains| && n in chains[c] && n != entry :: n.key != entry.key
    {
      hide Stores, Linked, HasKey;
      forall c, n | 0 <= c < |chains| && n in chains[c] && n != entry ensures n.key != entry.key {
        assert Keyed(chains[c], c, |chains|) && Keyed(Home(chains, entry.key), KeyHash(entry.key, |chains|), |chains|);
      }
    }

    method Remove(key: int)
      requires Valid()
      modifies this`chains, this`contents, table, nodes
      ensures contents == old(contents) - {key}
      ensures Valid()
    {
      hide Maps, Linked, HasKey;
      var hashValue := KeyHash(key, tableSize);
      ghost var chain := chains[hashValue];
      var prev, entry, i := Locate(key, chain);
      MapsIff(chains, nodes, contents, key);
      if entry != null {
        PrevIsOfItsBucket(hashValue, prev);
        MapsWithout(chains, nodes, contents, hashValue, i);
        LinkedFrom(chain, i);
        Redirect(chain, i, chain[i + 1..], hashValue, prev, entry.next);
        chains := chains[hashValue := Without(chain, i)];
        contents := contents - {key};
      }
    }
  }
}
