/**
 `FixedSizedChainingHashMap` of include/HashMap.hpp: bucket chains of heap
 nodes, all drawn from one pool whose unused nodes form a stack. The bucket
 count is a power of two in the source, where masking is the remainder used here.
 */
module ChainingMap {
  import opened Basics

  datatype Entry<K, V> = Entry(key: K, value: V)

  // ----- Where the nodes are -----

  /** Chain b has a j-th node. */
  ghost predicate Link<T>(chains: seq<seq<T>>, b: nat, j: nat) {
    b < |chains| && j < |chains[b]|
  }

  /** Chains and free stack share no node and hold no node twice. */
  ghost predicate Disjoint<T>(chains: seq<seq<T>>, free: seq<T>) {
    && (forall b: nat, j: nat, c: nat, l: nat {:trigger Link(chains, b, j), Link(chains, c, l)} ::
          Link(chains, b, j) && Link(chains, c, l) && chains[b][j] == chains[c][l] ==> b == c && j == l)
    && (forall i: nat, j: nat {:trigger free[i], free[j]} :: i < j < |free| ==> free[i] != free[j])
    && (forall b: nat, j: nat {:trigger Link(chains, b, j)} :: Link(chains, b, j) ==> chains[b][j] !in free)
  }

  ghost predicate Holds<T>(chains: seq<seq<T>>, free: seq<T>, x: T) {
    x in free || exists b: nat, j: nat :: Link(chains, b, j) && chains[b][j] == x
  }

  /** Chains and free stack partition the pool. */
  ghost predicate Partition<T>(chains: seq<seq<T>>, free: seq<T>, pool: seq<T>) {
    && Disjoint(chains, free)
    && (forall x {:trigger Holds(chains, free, x)} :: x in pool ==> Holds(chains, free, x))
    && (forall i: nat {:trigger free[i]} :: i < |free| ==> free[i] in pool)
    && (forall b: nat, j: nat {:trigger Link(chains, b, j)} :: Link(chains, b, j) ==> chains[b][j] in pool)
  }

  ghost function Length<T>(): seq<T> -> nat {
    (c: seq<T>) => |c|
  }

  /** How many elements all chains hold together. */
  ghost function Total<T>(chains: seq<seq<T>>): nat {
    SumBy(chains, Length())
  }

  lemma TotalUpdate<T>(chains: seq<seq<T>>, b: nat, c: seq<T>)
    requires b < |chains|
    ensures Total(chains[b := c]) == Total(chains) - |chains[b]| + |c|
  {
    SumByUpdate(chains, b, c, Length());
  }

  function Without<T>(s: seq<T>, j: nat): seq<T>
    requires j < |s|
  {
    s[..j] + s[j + 1..]
  }

  /** Taking the top of the stack and appending it to a chain keeps the partition. */
  lemma TakePartition<T>(chains: seq<seq<T>>, free: seq<T>, pool: seq<T>, b: nat)
    requires Partition(chains, free, pool) && b < |chains| && free != []
    ensures Partition(chains[b := chains[b] + [free[|free| - 1]]], free[..|free| - 1], pool)
  {
    var x, free' := free[|free| - 1], free[..|free| - 1];
    var chains' := chains[b := chains[b] + [x]];
    assert free == free' + [x];
    forall y {:trigger Holds(chains', free', y)} | y in pool ensures Holds(chains', free', y) {
      assert Holds(chains, free, y);
      assert Link(chains', b, |chains[b]|);
      if y !in free {
        var c: nat, l: nat :| Link(chains, c, l) && chains[c][l] == y;
        assert Link(chains', c, l);
      }
    }
    forall c: nat, l: nat {:trigger Link(chains', c, l)} | Link(chains', c, l) ensures chains'[c][l] in pool {
      assert Link(chains, c, l) || chains'[c][l] == x;
    }
    TakeDisjoint(chains, free, b);
  }

  lemma TakeDisjoint<T>(chains: seq<seq<T>>, free: seq<T>, b: nat)
    requires Disjoint(chains, free) && b < |chains| && free != []
    ensures Disjoint(chains[b := chains[b] + [free[|free| - 1]]], free[..|free| - 1])
  {
    var chains' := chains[b := chains[b] + [free[|free| - 1]]];
    forall c: nat, l: nat {:trigger Link(chains', c, l)} | Link(chains', c, l)
      ensures (c == b && l == |chains[b]|) || (Link(chains, c, l) && chains'[c][l] == chains[c][l])
    {
    }
  }

  /** Unlinking a node of a chain and pushing it on the stack keeps the partition. */
  lemma ReturnPartition<T>(chains: seq<seq<T>>, free: seq<T>, pool: seq<T>, b: nat, j: nat)
    requires Partition(chains, free, pool) && b < |chains| && j < |chains[b]|
    ensures Partition(chains[b := Without(chains[b], j)], free + [chains[b][j]], pool)
  {
    var x, free' := chains[b][j], free + [chains[b][j]];
    var chains' := chains[b := Without(chains[b], j)];
    assert Link(chains, b, j);
    forall y {:trigger Holds(chains', free', y)} | y in pool ensures Holds(chains', free', y) {
      assert Holds(chains, free, y);
      if y !in free' {
        var c: nat, l: nat :| Link(chains, c, l) && chains[c][l] == y;
        var l' := if c == b && l > j then l - 1 else l;
        assert y != x && Link(chains', c, l') && chains'[c][l'] == y;
      }
    }
    forall c: nat, l: nat {:trigger Link(chains', c, l)} | Link(chains', c, l) ensures chains'[c][l] in pool {
      assert Link(chains, c, if c == b && l >= j then l + 1 else l);
    }
    ReturnDisjoint(chains, free, b, j);
  }

  lemma ReturnDisjoint<T>(chains: seq<seq<T>>, free: seq<T>, b: nat, j: nat)
    requires Disjoint(chains, free) && b < |chains| && j < |chains[b]|
    ensures Disjoint(chains[b := Without(chains[b], j)], free + [chains[b][j]])
  {
    var chains' := chains[b := Without(chains[b], j)];
    assert Link(chains, b, j);
    forall c: nat, l: nat {:trigger Link(chains', c, l)} | Link(chains', c, l)
      ensures var l' := if c == b && l >= j then l + 1 else l; Link(chains, c, l') && chains'[c][l] == chains[c][l']
    {
    }
  }

  // ----- What the chains mean -----

  function Home<K>(hash: K -> nat, k: K, n: nat): (h: nat)
    requires n > 0
    ensures h < n
  {
    hash(k) % n
  }

  /** Position of the first entry of a chain with key k; its length when there is none. */
  function FirstOf<K(==), V>(c: seq<Entry<K, V>>, k: K): (j: nat)
    ensures j <= |c| && (j < |c| ==> c[j].key == k)
    ensures forall l: nat :: l < j ==> c[l].key != k
  {
    if c == [] || c[0].key == k then 0 else 1 + FirstOf(c[1..], k)
  }

  ghost predicate InChain<K, V>(c: seq<Entry<K, V>>, k: K) {
    exists j: nat :: j < |c| && c[j].key == k
  }

  /** Chain b holds exactly the entries of m whose keys hash to b, each once. */
  ghost predicate ChainOf<K, V>(c: seq<Entry<K, V>>, hash: K -> nat, n: nat, b: nat, m: map<K, V>)
    requires n > 0
  {
    && (forall j: nat :: j < |c| ==> Home(hash, c[j].key, n) == b && c[j].key in m && m[c[j].key] == c[j].value)
    && (forall j: nat, l: nat :: j < |c| && l < |c| && c[j].key == c[l].key ==> j == l)
    && (forall k :: k in m && Home(hash, k, n) == b ==> InChain(c, k))
  }

  /** The chains stand for the finite map m. */
  ghost predicate Represents<K, V>(t: seq<seq<Entry<K, V>>>, hash: K -> nat, m: map<K, V>)
    requires |t| > 0
  {
    forall b: nat {:trigger t[b]} :: b < |t| ==> ChainOf(t[b], hash, |t|, b, m)
  }

  /** A map change at one key concerns only the chain of that key. */
  lemma OneChain<K, V>(t: seq<seq<Entry<K, V>>>, hash: K -> nat, m: map<K, V>, k: K, c: seq<Entry<K, V>>, m': map<K, V>)
    requires |t| > 0 && Represents(t, hash, m)
    requires ChainOf(c, hash, |t|, Home(hash, k, |t|), m')
    requires m' - {k} == m - {k}
    ensures Represents(t[Home(hash, k, |t|) := c], hash, m')
  {
    var t' := t[Home(hash, k, |t|) := c];
    forall b: nat | b < |t| ensures ChainOf(t'[b], hash, |t|, b, m') {
      if b != Home(hash, k, |t|) {
        assert forall x :: x in m' && x != k ==> x in m' - {k};
        assert forall x :: x in m && x != k ==> x in m - {k};
        assert ChainOf(t[b], hash, |t|, b, m);
      }
    }
  }

  lemma AppendToChain<K, V>(c: seq<Entry<K, V>>, hash: K -> nat, n: nat, b: nat, m: map<K, V>, k: K, v: V)
    requires n > 0 && ChainOf(c, hash, n, b, m) && Home(hash, k, n) == b
    ensures ChainOf(c + [Entry(k, v)], hash, n, b, m[k := v]) <==> k !in m
  {
    var c' := c + [Entry(k, v)];
    assert forall j: nat :: j < |c| ==> c'[j] == c[j];
    assert c'[|c|].key == k;
    if k in m {
      var j: nat :| j < |c| && c[j].key == k;
      assert c'[j].key == k;
    } else {
      forall x | x in m[k := v] && Home(hash, x, n) == b ensures InChain(c', x) {
        if x != k {
          var j: nat :| j < |c| && c[j].key == x;
          assert c'[j].key == x;
        }
      }
    }
  }

  /** Appending an entry updates the map exactly when its key is absent. */
  lemma AppendIffAbsent<K, V>(t: seq<seq<Entry<K, V>>>, hash: K -> nat, m: map<K, V>, k: K, v: V)
    requires |t| > 0 && Represents(t, hash, m)
    ensures var b := Home(hash, k, |t|); Represents(t[b := t[b] + [Entry(k, v)]], hash, m[k := v]) <==> k !in m
  {
    var b := Home(hash, k, |t|);
    var t' := t[b := t[b] + [Entry(k, v)]];
    assert ChainOf(t[b], hash, |t|, b, m);
    AppendToChain(t[b], hash, |t|, b, m, k, v);
    if k in m {
      assert !ChainOf(t'[b], hash, |t'|, b, m[k := v]);
    } else {
      OneChain(t, hash, m, k, t'[b], m[k := v]);
    }
  }

  /** Overwriting the entry of a present key updates the map. */
  lemma OverwriteUpdates<K, V>(t: seq<seq<Entry<K, V>>>, hash: K -> nat, m: map<K, V>, k: K, v: V)
    requires |t| > 0 && Represents(t, hash, m) && k in m
    ensures var b := Home(hash, k, |t|); var j := FirstOf(t[b], k);
            j < |t[b]| && Represents(t[b := t[b][j := Entry(k, v)]], hash, m[k := v])
  {
    var b := Home(hash, k, |t|);
    var c := t[b];
    assert ChainOf(c, hash, |t|, b, m);
    var j := FirstOf(c, k);
    var c' := c[j := Entry(k, v)];
    forall x | x in m[k := v] && Home(hash, x, |t|) == b ensures InChain(c', x) {
      var i: nat :| i < |c| && c[i].key == x;
      assert c'[i].key == x;
    }
    OneChain(t, hash, m, k, c', m[k := v]);
  }

  lemma RemoveFromChain<K, V>(c: seq<Entry<K, V>>, hash: K -> nat, n: nat, b: nat, m: map<K, V>, k: K, j: nat)
    requires n > 0 && ChainOf(c, hash, n, b, m) && j < |c| && c[j].key == k
    ensures ChainOf(Without(c, j), hash, n, b, m - {k})
  {
    var c' := Without(c, j);
    assert forall l: nat :: l < |c'| ==> c'[l] == c[if l < j then l else l + 1];
    forall x | x in m - {k} && Home(hash, x, n) == b ensures InChain(c', x) {
      var i: nat :| i < |c| && c[i].key == x;
      assert c'[if i < j then i else i - 1] == c[i];
    }
  }

  /** Unlinking the first entry of a key removes it from the map. */
  lemma RemoveErases<K, V>(t: seq<seq<Entry<K, V>>>, hash: K -> nat, m: map<K, V>, k: K)
    requires |t| > 0 && Represents(t, hash, m) && k in m
    ensures var b := Home(hash, k, |t|); var j := FirstOf(t[b], k);
            j < |t[b]| && Represents(t[b := Without(t[b], j)], hash, m - {k})
  {
    var b := Home(hash, k, |t|);
    var j := FirstOf(t[b], k);
    assert ChainOf(t[b], hash, |t|, b, m);
    RemoveFromChain(t[b], hash, |t|, b, m, k, j);
    OneChain(t, hash, m, k, Without(t[b], j), m - {k});
  }

  // ----- Size -----

  ghost function KeysOf<K, V>(c: seq<Entry<K, V>>): set<K> {
    set e | e in c :: e.key
  }

  ghost function AllKeys<K, V>(t: seq<seq<Entry<K, V>>>): set<K> {
    if t == [] then {} else KeysOf(t[0]) + AllKeys(t[1..])
  }

  lemma {:induction false} KeysOfSize<K, V>(c: seq<Entry<K, V>>)
    requires forall j: nat, l: nat :: j < |c| && l < |c| && c[j].key == c[l].key ==> j == l
    ensures |KeysOf(c)| == |c|
  {
    if c != [] {
      KeysOfSize(c[1..]);
      assert forall j: nat :: j < |c| - 1 ==> c[1..][j] == c[j + 1];
      assert KeysOf(c) == KeysOf(c[1..]) + {c[0].key};
      assert c[0].key !in KeysOf(c[1..]);
    }
  }

  lemma {:induction false} AllKeysIn<K, V>(t: seq<seq<Entry<K, V>>>, k: K)
    ensures k in AllKeys(t) <==> exists b: nat :: b < |t| && k in KeysOf(t[b])
  {
    if t != [] {
      AllKeysIn(t[1..], k);
      assert forall b: nat :: b < |t| - 1 ==> t[1..][b] == t[b + 1];
      if exists b: nat :: b < |t| && k in KeysOf(t[b]) {
        var b: nat :| b < |t| && k in KeysOf(t[b]);
        assert b > 0 ==> k in KeysOf(t[1..][b - 1]);
      }
    }
  }

  lemma {:induction false} AllKeysSize<K, V>(t: seq<seq<Entry<K, V>>>, hash: K -> nat, n: nat, lo: nat, m: map<K, V>)
    requires n > 0 && forall b: nat {:trigger t[b]} :: b < |t| ==> ChainOf(t[b], hash, n, lo + b, m)
    ensures |AllKeys(t)| == Total(t)
    ensures forall k {:trigger k in AllKeys(t)} :: k in AllKeys(t) ==> k in m && Home(hash, k, n) >= lo
  {
    if t != [] {
      assert forall b: nat :: b < |t| - 1 ==> t[1..][b] == t[b + 1];
      AllKeysSize(t[1..], hash, n, lo + 1, m);
      assert ChainOf(t[0], hash, n, lo, m);
      KeysOfSize(t[0]);
      forall k | k in KeysOf(t[0]) ensures k in m && Home(hash, k, n) == lo {
        var e :| e in t[0] && e.key == k;
        var j: nat :| j < |t[0]| && t[0][j] == e;
      }
      assert KeysOf(t[0]) !! AllKeys(t[1..]);
    }
  }

  lemma MapKeyLinked<K, V>(t: seq<seq<Entry<K, V>>>, hash: K -> nat, m: map<K, V>, k: K)
    requires |t| > 0 && Represents(t, hash, m) && k in m
    ensures k in AllKeys(t)
  {
    var b := Home(hash, k, |t|);
    assert ChainOf(t[b], hash, |t|, b, m);
    var j: nat :| j < |t[b]| && t[b][j].key == k;
    assert t[b][j] in t[b];
    assert k in KeysOf(t[b]);
    AllKeysIn(t, k);
  }

  /** The number of linked nodes is the size of the map. */
  lemma SizeOfMap<K, V>(t: seq<seq<Entry<K, V>>>, hash: K -> nat, m: map<K, V>)
    requires |t| > 0 && Represents(t, hash, m)
    ensures Total(t) == |m|
  {
    AllKeysSize(t, hash, |t|, 0, m);
    forall k | k in m ensures k in AllKeys(t) { MapKeyLinked(t, hash, m, k); }
    assert AllKeys(t) == m.Keys;
  }

  // ----- Linked chains -----

  class Node<K, V> {
    var key: K
    var value: V
    var next: Node?<K, V>

    constructor (key: K, value: V)
      ensures this.key == key && this.value == value && next == null
    {
      this.key, this.value, next := key, value, null;
    }
  }

  /** The fields of one node at one moment. */
  datatype Cell<K, V> = Cell(key: K, value: V, next: Node?<K, V>)

  type Memory<K, V> = map<Node<K, V>, Cell<K, V>>

  ghost function NodeAt<K, V>(c: seq<Node<K, V>>, j: nat): Node?<K, V> {
    if j < |c| then c[j] else null
  }

  /** The list that starts at head runs through the nodes c, which hold the entries e, and ends there. */
  ghost predicate Linked<K, V>(head: Node?<K, V>, c: seq<Node<K, V>>, e: seq<Entry<K, V>>, mem: Memory<K, V>) {
    && |e| == |c| && head == NodeAt(c, 0)
    && (forall j: nat {:trigger e[j]} {:trigger c[j] in mem} :: j < |c| ==>
          c[j] in mem && mem[c[j]] == Cell(e[j].key, e[j].value, NodeAt(c, j + 1)))
  }

  ghost predicate AllLinked<K, V>(heads: seq<Node?<K, V>>, chains: seq<seq<Node<K, V>>>, entries: seq<seq<Entry<K, V>>>, mem: Memory<K, V>) {
    && |heads| == |chains| == |entries|
    && (forall b: nat {:trigger chains[b]} {:trigger heads[b]} :: b < |chains| ==> Linked(heads[b], chains[b], entries[b], mem))
  }

  /** Chains do not see changes to nodes outside them. */
  lemma LinkedFrame<K, V>(head: Node?<K, V>, c: seq<Node<K, V>>, e: seq<Entry<K, V>>, mem: Memory<K, V>, mem': Memory<K, V>)
    requires Linked(head, c, e, mem)
    requires forall j: nat {:trigger c[j]} :: j < |c| ==> c[j] in mem && c[j] in mem' && mem'[c[j]] == mem[c[j]]
    ensures Linked(head, c, e, mem')
  {
    forall j: nat {:trigger e[j]} | j < |c| ensures c[j] in mem' && mem'[c[j]] == Cell(e[j].key, e[j].value, NodeAt(c, j + 1)) {
      assert c[j] in mem;
    }
  }

  /** A write that leaves the nodes of every other chain alone and relinks chain b. */
  lemma AllLinkedUpdate<K, V>(heads: seq<Node?<K, V>>, chains: seq<seq<Node<K, V>>>, entries: seq<seq<Entry<K, V>>>,
                              mem: Memory<K, V>, mem': Memory<K, V>, b: nat,
                              head: Node?<K, V>, c: seq<Node<K, V>>, e: seq<Entry<K, V>>)
    requires AllLinked(heads, chains, entries, mem) && b < |chains| && Linked(head, c, e, mem')
    requires forall d: nat, j: nat {:trigger Link(chains, d, j)} :: Link(chains, d, j) && d != b ==>
      chains[d][j] in mem' && chains[d][j] in mem && mem'[chains[d][j]] == mem[chains[d][j]]
    ensures AllLinked(heads[b := head], chains[b := c], entries[b := e], mem')
  {
    var chains' := chains[b := c];
    forall d: nat {:trigger chains'[d]} | d < |chains| ensures Linked(heads[b := head][d], chains'[d], entries[b := e][d], mem') {
      if d != b {
        assert Linked(heads[d], chains[d], entries[d], mem);
        assert forall j: nat {:trigger chains[d][j]} :: j < |chains[d]| ==> Link(chains, d, j);
        LinkedFrame(heads[d], chains[d], entries[d], mem, mem');
      }
    }
  }

  ghost function WithNext<K, V>(mem: Memory<K, V>, x: Node?<K, V>, next: Node?<K, V>): Memory<K, V> {
    if x != null && x in mem then mem[x := mem[x].(next := next)] else mem
  }

  /** The node memory after x was filled and linked behind `last`, and the bucket heads with it. */
  ghost function MemWith<K, V>(mem: Memory<K, V>, x: Node<K, V>, k: K, v: V, last: Node?<K, V>): Memory<K, V> {
    WithNext(mem[x := Cell(k, v, null)], last, x)
  }

  ghost function HeadsWith<K, V>(heads: seq<Node?<K, V>>, b: nat, x: Node<K, V>, last: Node?<K, V>): seq<Node?<K, V>>
    requires b < |heads|
  {
    if last == null then heads[b := x] else heads
  }

  ghost function LastOf<K, V>(c: seq<Node<K, V>>): Node?<K, V> {
    if c == [] then null else c[|c| - 1]
  }

  lemma AppendOne<K, V>(head: Node?<K, V>, c: seq<Node<K, V>>, e: seq<Entry<K, V>>, mem: Memory<K, V>, x: Node<K, V>, k: K, v: V)
    requires Linked(head, c, e, mem) && x !in c
    requires forall i: nat, j: nat :: i < j < |c| ==> c[i] != c[j]
    ensures Linked(if c == [] then x else head, c + [x], e + [Entry(k, v)], WithNext(mem[x := Cell(k, v, null)], LastOf(c), x))
  {
    var c', e', mem' := c + [x], e + [Entry(k, v)], WithNext(mem[x := Cell(k, v, null)], LastOf(c), x);
    forall j: nat {:trigger e'[j]} | j < |c'| ensures c'[j] in mem' && mem'[c'[j]] == Cell(e'[j].key, e'[j].value, NodeAt(c', j + 1)) {
      if j < |c| {
        assert e'[j] == e[j] && c'[j] == c[j] && c[j] in c;
      }
    }
  }

  /** Linking a free node behind the last node of its chain. */
  lemma AppendLinks<K, V>(heads: seq<Node?<K, V>>, chains: seq<seq<Node<K, V>>>, entries: seq<seq<Entry<K, V>>>,
                          mem: Memory<K, V>, free: seq<Node<K, V>>, b: nat, k: K, v: V)
    requires AllLinked(heads, chains, entries, mem) && Disjoint(chains, free) && b < |chains| && free != []
    ensures var x := free[|free| - 1];
      AllLinked(heads[b := if chains[b] == [] then x else heads[b]], chains[b := chains[b] + [x]],
        entries[b := entries[b] + [Entry(k, v)]], WithNext(mem[x := Cell(k, v, null)], LastOf(chains[b]), x))
  {
    var x, c := free[|free| - 1], chains[b];
    var mem' := WithNext(mem[x := Cell(k, v, null)], LastOf(c), x);
    assert x in free;
    forall j: nat {:trigger c[j]} | j < |c| ensures c[j] != x { assert Link(chains, b, j); }
    forall i: nat, j: nat | i < j < |c| ensures c[i] != c[j] { assert Link(chains, b, i) && Link(chains, b, j); }
    AppendOne(heads[b], c, entries[b], mem, x, k, v);
    forall d: nat, j: nat {:trigger Link(chains, d, j)} | Link(chains, d, j) && d != b
      ensures chains[d][j] in mem' && chains[d][j] in mem && mem'[chains[d][j]] == mem[chains[d][j]]
    {
      assert Linked(heads[d], chains[d], entries[d], mem) && chains[d][j] in mem;
      assert c != [] ==> Link(chains, b, |c| - 1);
    }
    AllLinkedUpdate(heads, chains, entries, mem, mem', b, if c == [] then x else heads[b], c + [x], entries[b] + [Entry(k, v)]);
  }

  ghost function PreviousOf<K, V>(c: seq<Node<K, V>>, j: nat): Node?<K, V>
    requires j <= |c|
  {
    if j == 0 then null else c[j - 1]
  }

  lemma RemoveOne<K, V>(head: Node?<K, V>, c: seq<Node<K, V>>, e: seq<Entry<K, V>>, mem: Memory<K, V>, j: nat)
    requires Linked(head, c, e, mem) && j < |c|
    requires forall i: nat, l: nat :: i < l < |c| ==> c[i] != c[l]
    ensures Linked(if j == 0 then NodeAt(c, 1) else head, Without(c, j), Without(e, j),
              if j == 0 then mem else WithNext(mem, c[j - 1], NodeAt(c, j + 1)))
  {
    var c', e' := Without(c, j), Without(e, j);
    var mem' := if j == 0 then mem else WithNext(mem, c[j - 1], NodeAt(c, j + 1));
    forall l: nat {:trigger e'[l]} | l < |c'| ensures c'[l] in mem' && mem'[c'[l]] == Cell(e'[l].key, e'[l].value, NodeAt(c', l + 1)) {
      var i := if l < j then l else l + 1;
      assert e'[l] == e[i] && c'[l] == c[i] && c[i] in mem;
      assert l + 1 < |c'| ==> c'[l + 1] == c[if l + 1 < j then l + 1 else l + 2];
      assert NodeAt(c', l + 1) == if l + 1 == j then NodeAt(c, j + 1) else NodeAt(c, i + 1);
    }
  }

  /** Unlinking the j-th node of a chain by redirecting its predecessor or its bucket. */
  lemma RemoveLinks<K, V>(heads: seq<Node?<K, V>>, chains: seq<seq<Node<K, V>>>, entries: seq<seq<Entry<K, V>>>,
                          mem: Memory<K, V>, free: seq<Node<K, V>>, b: nat, j: nat)
    requires AllLinked(heads, chains, entries, mem) && Disjoint(chains, free) && b < |chains| && j < |chains[b]|
    ensures |entries[b]| == |chains[b]| && chains[b][j] in mem
    ensures var next := mem[chains[b][j]].next;
      AllLinked(if j == 0 then heads[b := next] else heads, chains[b := Without(chains[b], j)],
        entries[b := Without(entries[b], j)], WithNext(mem, PreviousOf(chains[b], j), next))
  {
    var c := chains[b];
    assert Linked(heads[b], c, entries[b], mem) && c[j] in mem;
    var next := mem[c[j]].next;
    var mem' := WithNext(mem, PreviousOf(c, j), next);
    forall i: nat, l: nat | i < l < |c| ensures c[i] != c[l] { assert Link(chains, b, i) && Link(chains, b, l); }
    RemoveOne(heads[b], c, entries[b], mem, j);
    forall d: nat, l: nat {:trigger Link(chains, d, l)} | Link(chains, d, l) && d != b
      ensures chains[d][l] in mem' && chains[d][l] in mem && mem'[chains[d][l]] == mem[chains[d][l]]
    {
      assert Linked(heads[d], chains[d], entries[d], mem) && chains[d][l] in mem;
      assert j > 0 ==> Link(chains, b, j - 1);
    }
    var head := if j == 0 then next else heads[b];
    AllLinkedUpdate(heads, chains, entries, mem, mem', b, head, Without(c, j), Without(entries[b], j));
    assert j > 0 ==> heads[b := head] == heads;
  }

  /** Writing the value of a linked node. */
  lemma StoreLinks<K, V>(heads: seq<Node?<K, V>>, chains: seq<seq<Node<K, V>>>, entries: seq<seq<Entry<K, V>>>,
                         mem: Memory<K, V>, free: seq<Node<K, V>>, b: nat, j: nat, v: V)
    requires AllLinked(heads, chains, entries, mem) && Disjoint(chains, free) && b < |chains| && j < |chains[b]|
    ensures |entries[b]| == |chains[b]| && chains[b][j] in mem
    ensures var x := chains[b][j];
      AllLinked(heads, chains, entries[b := entries[b][j := entries[b][j].(value := v)]], mem[x := mem[x].(value := v)])
  {
    var c, e := chains[b], entries[b];
    assert Linked(heads[b], c, e, mem) && c[j] in mem;
    var mem', e' := mem[c[j] := mem[c[j]].(value := v)], e[j := e[j].(value := v)];
    forall l: nat {:trigger e'[l]} | l < |c| ensures c[l] in mem' && mem'[c[l]] == Cell(e'[l].key, e'[l].value, NodeAt(c, l + 1)) {
      assert Link(chains, b, j) && Link(chains, b, l);
      assert c[l] in mem;
    }
    forall d: nat, l: nat {:trigger Link(chains, d, l)} | Link(chains, d, l) && d != b
      ensures chains[d][l] in mem' && chains[d][l] in mem && mem'[chains[d][l]] == mem[chains[d][l]]
    {
      assert Linked(heads[d], chains[d], entries[d], mem) && chains[d][l] in mem;
      assert Link(chains, b, j);
    }
    AllLinkedUpdate(heads, chains, entries, mem, mem', b, heads[b], c, e');
    assert chains[b := c] == chains && heads[b := heads[b]] == heads;
  }

  /** Everything the map keeps: partition, links and node count. */
  ghost predicate Good<K, V>(heads: seq<Node?<K, V>>, chains: seq<seq<Node<K, V>>>, entries: seq<seq<Entry<K, V>>>,
                             mem: Memory<K, V>, free: seq<Node<K, V>>, pool: seq<Node<K, V>>) {
    && Partition(chains, free, pool)
    && AllLinked(heads, chains, entries, mem)
    && Total(entries) + |free| == |pool|
  }

  lemma AppendGood<K, V>(heads: seq<Node?<K, V>>, chains: seq<seq<Node<K, V>>>, entries: seq<seq<Entry<K, V>>>,
                         mem: Memory<K, V>, free: seq<Node<K, V>>, pool: seq<Node<K, V>>, b: nat, k: K, v: V)
    requires Good(heads, chains, entries, mem, free, pool) && b < |chains| && free != []
    ensures |heads| == |chains| == |entries|
    ensures var x, last := free[|free| - 1], LastOf(chains[b]);
      && x in pool && (last != null ==> last in pool) && (heads[b] == null <==> last == null)
      && Good(HeadsWith(heads, b, x, last), chains[b := chains[b] + [x]], entries[b := entries[b] + [Entry(k, v)]],
           MemWith(mem, x, k, v, last), free[..|free| - 1], pool)
  {
    var x, last := free[|free| - 1], LastOf(chains[b]);
    assert last != null ==> Link(chains, b, |chains[b]| - 1);
    assert Linked(heads[b], chains[b], entries[b], mem);
    TakePartition(chains, free, pool, b);
    AppendLinks(heads, chains, entries, mem, free, b, k, v);
    TotalUpdate(entries, b, entries[b] + [Entry(k, v)]);
    assert last != null ==> heads[b := heads[b]] == heads;
  }

  lemma RemoveGood<K, V>(heads: seq<Node?<K, V>>, chains: seq<seq<Node<K, V>>>, entries: seq<seq<Entry<K, V>>>,
                         mem: Memory<K, V>, free: seq<Node<K, V>>, pool: seq<Node<K, V>>, b: nat, j: nat)
    requires Good(heads, chains, entries, mem, free, pool) && b < |chains| && j < |chains[b]|
    ensures |entries[b]| == |chains[b]| && chains[b][j] in mem && chains[b][j] in pool
    ensures var x, previous := chains[b][j], PreviousOf(chains[b], j);
      && (previous != null ==> previous in pool)
      && Good(if previous == null then heads[b := mem[x].next] else heads, chains[b := Without(chains[b], j)],
           entries[b := Without(entries[b], j)], WithNext(mem, previous, mem[x].next), free + [x], pool)
  {
    var x, previous := chains[b][j], PreviousOf(chains[b], j);
    assert Link(chains, b, j) && (j > 0 ==> Link(chains, b, j - 1));
    ReturnPartition(chains, free, pool, b, j);
    RemoveLinks(heads, chains, entries, mem, free, b, j);
    TotalUpdate(entries, b, Without(entries[b], j));
  }

  // ----- The map -----

  method NewPool<K, V>(blankKey: K, blank: V, count: nat) returns (pool: seq<Node<K, V>>)
    ensures |pool| == count && fresh(pool)
    ensures forall i: nat, j: nat {:trigger pool[i], pool[j]} :: i < j < |pool| ==> pool[i] != pool[j]
  {
    pool := [];
    while |pool| < count
      invariant |pool| <= count && fresh(pool)
      invariant forall i: nat, j: nat {:trigger pool[i], pool[j]} :: i < j < |pool| ==> pool[i] != pool[j]
    {
      var node := new Node<K, V>(blankKey, blank);
      pool := pool + [node];
    }
  }

  class FixedSizedChainingHashMap<K(==), V> {
    const hash: K -> nat
    const blank: V
    const nodesPool: seq<Node<K, V>>
    const buckets: array<Node?<K, V>>
    var freeNodes: seq<Node<K, V>>
    ghost var chains: seq<seq<Node<K, V>>>
    ghost var entries: seq<seq<Entry<K, V>>>

    ghost function Mem(): Memory<K, V>
      reads nodesPool
    {
      map x | x in nodesPool :: Cell(x.key, x.value, x.next)
    }

    ghost predicate Valid()
      reads this, buckets, nodesPool
    {
      && buckets.Length > 0
      && Good(buckets[..], chains, entries, Mem(), freeNodes, nodesPool)
    }

    /** The map has as many keys as the pool has nodes in use. */
    lemma SizeIsUsedNodes(m: map<K, V>)
      requires Valid() && Represents(entries, hash, m)
      ensures |m| == |nodesPool| - |freeNodes|
    {
      SizeOfMap(entries, hash, m);
    }

    constructor (hash: K -> nat, blankKey: K, blank: V, initBuckets: nat)
      requires initBuckets > 0
      ensures Valid() && fresh(buckets) && fresh(nodesPool) && this.hash == hash && this.blank == blank
      ensures buckets.Length == initBuckets && |nodesPool| == |freeNodes| == initBuckets * 16
      ensures Represents(entries, hash, map[])
    {
      var pool := NewPool(blankKey, blank, initBuckets * 16);
      this.hash, this.blank, nodesPool, freeNodes := hash, blank, pool, pool;
      buckets := new Node?<K, V>[initBuckets](_ => null);
      chains := seq(initBuckets, _ => []);
      entries := seq(initBuckets, _ => []);
      new;
      SumByZero(entries, Length());
    }

    /** Walks the chain of k to the first node with that key; `previous` trails one node behind. */
    method Locate(k: K) returns (previous: Node?<K, V>, node: Node?<K, V>, ghost j: nat)
      requires Valid()
      ensures var b := Home(hash, k, buckets.Length);
        && j == FirstOf(entries[b], k) && node == NodeAt(chains[b], j)
        && previous == if j == 0 then null else NodeAt(chains[b], j - 1)
    {
      var b := Home(hash, k, buckets.Length);
      ghost var c, e := chains[b], entries[b];
      previous, node, j := null, buckets[b], 0;
      assert Linked(buckets[..][b], c, e, Mem());
      while node != null && node.key != k
        invariant j <= |c| && node == NodeAt(c, j)
        invariant previous == if j == 0 then null else NodeAt(c, j - 1)
        invariant forall l: nat :: l < j ==> e[l].key != k
        decreases |c| - j
      {
        assert c[j] in Mem();
        previous, node, j := node, node.next, j + 1;
      }
      assert j < |c| ==> c[j] in Mem();
    }

    method Contains(k: K) returns (found: bool)
      requires Valid()
      ensures var c := entries[Home(hash, k, buckets.Length)]; found <==> FirstOf(c, k) < |c|
      ensures forall m :: Represents(entries, hash, m) ==> (found <==> k in m)
    {
      var previous, node; ghost var j;
      previous, node, j := Locate(k);
      found := node != null;
      ghost var b := Home(hash, k, buckets.Length);
      assert Linked(buckets[..][b], chains[b], entries[b], Mem());
      forall m | Represents(entries, hash, m) ensures found <==> k in m {
        assert ChainOf(entries[b], hash, |entries|, b, m);
      }
    }

    method Find(k: K) returns (r: Option<V>)
      requires Valid()
      ensures var c := entries[Home(hash, k, buckets.Length)]; var j := FirstOf(c, k);
        r == if j < |c| then Some(c[j].value) else None
      ensures forall m :: Represents(entries, hash, m) ==> r == if k in m then Some(m[k]) else None
    {
      var previous, node; ghost var j;
      previous, node, j := Locate(k);
      ghost var b := Home(hash, k, buckets.Length);
      assert Linked(buckets[..][b], chains[b], entries[b], Mem());
      assert j < |chains[b]| ==> chains[b][j] in Mem();
      r := if node != null then Some(node.value) else None;
      forall m | Represents(entries, hash, m) ensures r == if k in m then Some(m[k]) else None {
        assert ChainOf(entries[b], hash, |entries|, b, m);
      }
    }

    // The three heap writes, each stated on the node memory alone.

    method WriteValue(node: Node<K, V>, v: V)
      requires node in nodesPool
      modifies nodesPool
      ensures node in old(Mem()) && Mem() == old(Mem())[node := old(Mem())[node].(value := v)]
    {
      node.value := v;
    }

    method WriteLink(node: Node<K, V>, k: K, v: V, b: nat, last: Node?<K, V>)
      requires node in nodesPool && b < buckets.Length && (last != null ==> last in nodesPool)
      requires buckets[b] == null <==> last == null
      modifies buckets, nodesPool
      ensures Mem() == MemWith(old(Mem()), node, k, v, last)
      ensures buckets[..] == HeadsWith(old(buckets[..]), b, node, last)
    {
      node.key, node.value, node.next := k, v, null;
      if buckets[b] == null {
        buckets[b] := node;
      } else {
        last.next := node;
      }
    }

    method WriteUnlink(node: Node<K, V>, b: nat, previous: Node?<K, V>)
      requires node in nodesPool && b < buckets.Length && (previous != null ==> previous in nodesPool)
      modifies buckets, nodesPool
      ensures node in old(Mem()) && Mem() == WithNext(old(Mem()), previous, old(Mem())[node].next)
      ensures buckets[..] == if previous == null then old(buckets[..])[b := old(Mem())[node].next] else old(buckets[..])
    {
      if previous == null {
        buckets[b] := node.next;
      } else {
        previous.next := node.next;
      }
    }

    /** Sets the stack and the history of the chains; no node or bucket changes. */
    method Relabel(free: seq<Node<K, V>>, ghost chains': seq<seq<Node<K, V>>>, ghost entries': seq<seq<Entry<K, V>>>)
      modifies this`freeNodes, this`chains, this`entries
      ensures freeNodes == free && chains == chains' && entries == entries'
      ensures Mem() == old(Mem()) && buckets[..] == old(buckets[..])
    {
      freeNodes := free;
      chains, entries := chains', entries';
    }

    /** Writes through the reference that `find` and `operator[]` return. */
    method Store(node: Node<K, V>, v: V, ghost b: nat, ghost j: nat)
      requires Valid() && b < |chains| && j < |chains[b]| && node == chains[b][j]
      modifies this`entries, nodesPool
      ensures Valid() && |freeNodes| == |old(freeNodes)| && chains == old(chains)
      ensures j < |old(entries)[b]| && entries == old(entries)[b := old(entries)[b][j := old(entries)[b][j].(value := v)]]
    {
      assert Link(chains, b, j);
      StoreLinks(buckets[..], chains, entries, Mem(), freeNodes, b, j, v);
      ghost var e := entries[b][j := entries[b][j].(value := v)];
      TotalUpdate(entries, b, e);
      entries := entries[b := e];
      WriteValue(node, v);
    }

    /** Takes a node from the stack and links it at the end of chain b, behind `last`. */
    method Append(k: K, v: V, b: nat, last: Node?<K, V>) returns (node: Node<K, V>)
      requires Valid() && b < buckets.Length && freeNodes != [] && last == LastOf(chains[b])
      modifies this`freeNodes, this`chains, this`entries, buckets, nodesPool
      ensures Valid() && entries == old(entries)[b := old(entries)[b] + [Entry(k, v)]]
      ensures |freeNodes| == |old(freeNodes)| - 1
      ensures |chains[b]| == |old(chains)[b]| + 1 && LastOf(chains[b]) == node
    {
      node := freeNodes[|freeNodes| - 1];
      ghost var mem, heads := Mem(), buckets[..];
      AppendGood(heads, chains, entries, mem, freeNodes, nodesPool, b, k, v);
      Relabel(freeNodes[..|freeNodes| - 1], chains[b := chains[b] + [node]], entries[b := entries[b] + [Entry(k, v)]]);
      WriteLink(node, k, v, b, last);
      assert Mem() == MemWith(mem, node, k, v, last) && buckets[..] == HeadsWith(heads, b, node, last);
    }

    /** Unlinks the j-th node of chain b and returns it to the stack. */
    method Unlink(node: Node<K, V>, b: nat, previous: Node?<K, V>, ghost j: nat)
      requires Valid() && b < buckets.Length && j < |chains[b]| && node == chains[b][j]
      requires previous == PreviousOf(chains[b], j)
      modifies this`freeNodes, this`chains, this`entries, buckets, nodesPool
      ensures Valid() && j < |old(entries)[b]| && entries == old(entries)[b := Without(old(entries)[b], j)]
      ensures |freeNodes| == |old(freeNodes)| + 1
    {
      ghost var mem, heads := Mem(), buckets[..];
      RemoveGood(heads, chains, entries, mem, freeNodes, nodesPool, b, j);
      Relabel(freeNodes + [node], chains[b := Without(chains[b], j)], entries[b := Without(entries[b], j)]);
      ghost var mem', heads' := WithNext(mem, previous, mem[node].next), if previous == null then heads[b := mem[node].next] else heads;
      assert Good(heads', chains, entries, mem', freeNodes, nodesPool);
      WriteUnlink(node, b, previous);
      assert Mem() == mem' && buckets[..] == heads';
    }

    method Erase(k: K) returns (found: bool)
      requires Valid()
      modifies this`freeNodes, this`chains, this`entries, buckets, nodesPool
      ensures Valid()
      ensures var b := Home(hash, k, buckets.Length); var c := old(entries)[b]; var j := FirstOf(c, k);
        && (found <==> j < |c|)
        && entries == (if found then old(entries)[b := Without(c, j)] else old(entries))
        && |freeNodes| == |old(freeNodes)| + if found then 1 else 0
      ensures forall m :: Represents(old(entries), hash, m) ==> (found <==> k in m) && Represents(entries, hash, m - {k})
    {
      ghost var t := entries;
      var b := Home(hash, k, buckets.Length);
      var previous, node; ghost var j;
      previous, node, j := Locate(k);
      assert Linked(buckets[..][b], chains[b], entries[b], Mem());
      found := node != null;
      if node != null {
        Unlink(node, b, previous, j);
      }
      forall m | Represents(t, hash, m) ensures (found <==> k in m) && Represents(entries, hash, m - {k}) {
        assert ChainOf(t[b], hash, |t|, b, m);
        if k in m { RemoveErases(t, hash, m, k); } else { assert m - {k} == m; }
      }
    }

    /**
     Insertion, without a search for the key: it fails exactly when no node is
     free, and it is a map update exactly when the key is absent.
     */
    method Insert(k: K, v: V) returns (ok: bool)
      requires Valid()
      modifies this`freeNodes, this`chains, this`entries, buckets, nodesPool
      ensures Valid() && ok == (old(freeNodes) != [])
      ensures var b := Home(hash, k, buckets.Length);
        && entries == (if ok then old(entries)[b := old(entries)[b] + [Entry(k, v)]] else old(entries))
        && |freeNodes| == |old(freeNodes)| - if ok then 1 else 0
      ensures ok ==> forall m :: Represents(old(entries), hash, m) ==> (Represents(entries, hash, m[k := v]) <==> k !in m)
    {
      ghost var t := entries;
      var b := Home(hash, k, buckets.Length);
      if freeNodes == [] {
        return false;
      }
      ok := true;
      ghost var c := chains[b];
      assert Linked(buckets[..][b], c, entries[b], Mem());
      var last := buckets[b];
      if last != null {
        ghost var j := 0;
        assert c[j] in Mem();
        while last.next != null
          invariant j < |c| && last == c[j] && last.next == NodeAt(c, j + 1)
          decreases |c| - j
        {
          j := j + 1;
          last := last.next;
          assert c[j] in Mem();
        }
      }
      last := Append(k, v, b, last);
      forall m | Represents(t, hash, m) ensures Represents(entries, hash, m[k := v]) <==> k !in m { AppendIffAbsent(t, hash, m, k, v); }
    }

    /** `operator[]`: the first node of k, appended with a blank value if there is none; null when no node is free. */
    method Subscript(k: K) returns (node: Node?<K, V>, ghost j: nat)
      requires Valid()
      modifies this`freeNodes, this`chains, this`entries, buckets, nodesPool
      ensures Valid()
      ensures var b := Home(hash, k, buckets.Length); var c := old(entries)[b];
        && j == FirstOf(c, k)
        && (node == null <==> j == |c| && old(freeNodes) == [])
        && (node != null ==> j < |chains[b]| && node == chains[b][j])
        && entries == (if j < |c| || node == null then old(entries) else old(entries)[b := c + [Entry(k, blank)]])
      ensures node != null ==> forall m :: Represents(old(entries), hash, m) ==>
        Represents(entries, hash, if k in m then m else m[k := blank])
    {
      ghost var t := entries;
      var b := Home(hash, k, buckets.Length);
      var previous;
      previous, node, j := Locate(k);
      assert Linked(buckets[..][b], chains[b], entries[b], Mem());
      if node == null && freeNodes != [] {
        node := Append(k, blank, b, previous);
      }
      if node != null {
        forall m | Represents(t, hash, m) ensures Represents(entries, hash, if k in m then m else m[k := blank]) {
          assert ChainOf(t[b], hash, |t|, b, m);
          AppendIffAbsent(t, hash, m, k, blank);
        }
      }
    }

    /** `map[k] = v`: a map update, refused exactly when k is absent and no node is free. */
    method Assign(k: K, v: V) returns (ok: bool)
      requires Valid()
      modifies this`freeNodes, this`chains, this`entries, buckets, nodesPool
      ensures Valid()
      ensures var c := old(entries)[Home(hash, k, buckets.Length)]; ok <==> FirstOf(c, k) < |c| || old(freeNodes) != []
      ensures !ok ==> entries == old(entries)
      ensures ok ==> forall m :: Represents(old(entries), hash, m) ==> Represents(entries, hash, m[k := v])
    {
      ghost var t := entries;
      ghost var b := Home(hash, k, buckets.Length);
      var node; ghost var j;
      node, j := Subscript(k);
      ok := node != null;
      if node != null {
        ghost var t1 := entries;
        Store(node, v, b, j);
        AssignIsUpdate(t, t1, entries, hash, k, blank, v);
      }
    }
  }

  /** Storing into the entry that `operator[]` found or created updates the map. */
  lemma AssignIsUpdate<K, V>(t: seq<seq<Entry<K, V>>>, t1: seq<seq<Entry<K, V>>>, t2: seq<seq<Entry<K, V>>>, hash: K -> nat, k: K, blank: V, v: V)
    requires |t| > 0
    requires var b := Home(hash, k, |t|); var c := t[b]; var j := FirstOf(c, k);
      && t1 == (if j < |c| then t else t[b := c + [Entry(k, blank)]])
      && t2 == t1[b := t1[b][j := Entry(k, v)]]
    ensures forall m :: Represents(t, hash, m) ==> Represents(t2, hash, m[k := v])
  {
    var b := Home(hash, k, |t|);
    forall m | Represents(t, hash, m) ensures Represents(t2, hash, m[k := v]) {
      var m1 := if k in m then m else m[k := blank];
      assert ChainOf(t[b], hash, |t|, b, m);
      AppendIffAbsent(t, hash, m, k, blank);
      assert Represents(t1, hash, m1);
      OverwriteUpdates(t1, hash, m1, k, v);
      assert FirstOf(t1[b], k) == FirstOf(t[b], k);
      assert m1[k := v] == m[k := v];
    }
  }
}
