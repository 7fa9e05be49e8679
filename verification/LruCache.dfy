/** The LRU cache: a doubly linked list and a hash index that together keep keys in the order
    of their most recent use. */
module LruCache {
  import opened Common

  // ---------------------------------------------------------------- the abstract cache: most recent first

  type Entries<K, V> = seq<(K, V)>

  function Without<K(==), V>(s: Entries<K, V>, key: K): Entries<K, V> {
    if s == [] then []
    else if s[0].0 == key then Without(s[1..], key)
    else [s[0]] + Without(s[1..], key)
  }

  function Lookup<K(==), V>(s: Entries<K, V>, key: K): Option<V> {
    if s == [] then None
    else if s[0].0 == key then Some(s[0].1)
    else Lookup(s[1..], key)
  }

  datatype Op<K, V> = Get(key: K) | Peek(key: K) | Put(key: K, value: V) | Remove(key: K)

  function Apply<K(==), V>(s: Entries<K, V>, op: Op<K, V>): Entries<K, V> {
    match op
    case Get(key) =>
      (match Lookup(s, key)
       case None => s
       case Some(v) => [(key, v)] + Without(s, key))
    case Peek(key) => s
    case Put(key, value) => [(key, value)] + Without(s, key)
    case Remove(key) => Without(s, key)
  }

  function Run<K(==), V>(ops: seq<Op<K, V>>): Entries<K, V> {
    if ops == [] then [] else Apply(Run(ops[..|ops| - 1]), ops[|ops| - 1])
  }

  // ---------------------------------------------------------------- the history of a run

  /** The value last put under the key, unless it was removed since. */
  function LastPut<K(==), V>(ops: seq<Op<K, V>>, key: K): Option<V> {
    if ops == [] then None
    else
      var init, op := ops[..|ops| - 1], ops[|ops| - 1];
      if op.Put? && op.key == key then Some(op.value)
      else if op.Remove? && op.key == key then None
      else LastPut(init, key)
  }

  /** When the key was last read or written. */
  function LastUse<K(==), V>(ops: seq<Op<K, V>>, key: K): int {
    if ops == [] then -1
    else
      var op := ops[|ops| - 1];
      if (op.Put? || op.Get?) && op.key == key then |ops| - 1 else LastUse(ops[..|ops| - 1], key)
  }

  ghost predicate Descending<K, V>(s: Entries<K, V>, rank: K -> int) {
    forall i, j | 0 <= i < j < |s| :: rank(s[i].0) > rank(s[j].0)
  }

  lemma {:induction false} LastUseBounds<K, V>(ops: seq<Op<K, V>>, key: K)
    ensures -1 <= LastUse(ops, key) < |ops|
  {
    if ops != [] { LastUseBounds(ops[..|ops| - 1], key); }
  }

  lemma {:induction false} LookupWithout<K, V>(s: Entries<K, V>, key: K, other: K)
    ensures Lookup(Without(s, key), other) == if other == key then None else Lookup(s, other)
  {
    if s == [] {
    } else {
      LookupWithout(s[1..], key, other);
      if s[0].0 != key { assert Without(s, key)[1..] == Without(s[1..], key); }
    }
  }

  lemma {:induction false} WithoutElements<K, V>(s: Entries<K, V>, key: K)
    ensures forall e | e in Without(s, key) :: e in s && e.0 != key
  {
    if s != [] { WithoutElements(s[1..], key); }
  }

  lemma {:induction false} WithoutDescends<K, V>(s: Entries<K, V>, key: K, rank: K -> int)
    requires Descending(s, rank)
    ensures Descending(Without(s, key), rank)
  {
    if s == [] {
    } else {
      WithoutDescends(s[1..], key, rank);
      WithoutElements(s[1..], key);
      if s[0].0 != key {
        var rest := Without(s[1..], key);
        forall j | 0 <= j < |rest| ensures rank(s[0].0) > rank(rest[j].0) {
          assert rest[j] in s[1..];
        }
      }
    }
  }

  lemma DescendingFront<K, V>(s: Entries<K, V>, key: K, value: V, rank: K -> int, rank': K -> int)
    requires Descending(s, rank)
    requires forall e | e in s && e.0 != key :: rank'(e.0) == rank(e.0) < rank'(key)
    ensures Descending(Without(s, key), rank')
    ensures Descending([(key, value)] + Without(s, key), rank')
  {
    WithoutDescends(s, key, rank);
    WithoutElements(s, key);
    var rest := Without(s, key);
    forall i | 0 <= i < |rest| ensures rank'(rest[i].0) == rank(rest[i].0) < rank'(key) {
      assert rest[i] in s;
    }
  }

  /** After any run the cache holds exactly the keys put and not removed since, each with the value
      last put, ordered by most recent get or put; peeks leave no trace. */
  lemma {:induction false} RecencyOrder<K(!new), V>(ops: seq<Op<K, V>>)
    ensures forall key :: Lookup(Run(ops), key) == LastPut(ops, key)
    ensures Descending(Run(ops), key => LastUse(ops, key))
  {
    if ops == [] {
    } else {
      var init, op := ops[..|ops| - 1], ops[|ops| - 1];
      var s, s' := Run(init), Run(ops);
      RecencyOrder(init);
      forall key ensures Lookup(s', key) == LastPut(ops, key) {
        LookupWithout(s, op.key, key);
        assert op.Put? ==> s'[1..] == Without(s, op.key);
        assert op.Get? && Lookup(s, op.key).Some? ==> s'[1..] == Without(s, op.key);
      }
      RecencyStep(init, op);
    }
  }

  lemma RecencyStep<K, V>(init: seq<Op<K, V>>, op: Op<K, V>)
    requires Descending(Run(init), key => LastUse(init, key))
    ensures Descending(Run(init + [op]), key => LastUse(init + [op], key))
  {
    var ops := init + [op];
    var s := Run(init);
    var rank, rank' := key => LastUse(init, key), key => LastUse(ops, key);
    assert ops[..|init|] == init;
    if op.Peek? {
    } else if op.Remove? {
      WithoutDescends(s, op.key, rank);
      WithoutElements(s, op.key);
    } else if op.Put? || Lookup(s, op.key).Some? {
      forall e | e in s && e.0 != op.key ensures rank'(e.0) == rank(e.0) < rank'(op.key) {
        LastUseBounds(init, e.0);
      }
      DescendingFront(s, op.key, if op.Put? then op.value else Lookup(s, op.key).value, rank, rank');
    } else {
      LookupNone(s, op.key);
    }
  }

  lemma {:induction false} LookupNone<K, V>(s: Entries<K, V>, key: K)
    ensures Lookup(s, key) == None <==> forall e | e in s :: e.0 != key
  {
    if s == [] {
    } else {
      LookupNone(s[1..], key);
      assert forall e :: e in s <==> e == s[0] || e in s[1..];
    }
  }

  // ---------------------------------------------------------------- iteration

  /** What a callback that may stop the iteration gets to see: everything up to and including the
      first entry it rejects. */
  ghost predicate Visits<K, V>(s: Entries<K, V>, func: (K, V) -> bool, visited: Entries<K, V>) {
    && visited <= s
    && (forall k | 0 <= k < |visited| - 1 :: func(visited[k].0, visited[k].1))
    && (visited == s || (visited != [] && !func(visited[|visited| - 1].0, visited[|visited| - 1].1)))
  }

  function Reversed<T>(s: seq<T>): (r: seq<T>)
    ensures |r| == |s| && forall i | 0 <= i < |s| :: r[i] == s[|s| - 1 - i]
  {
    seq(|s|, i requires 0 <= i < |s| => s[|s| - 1 - i])
  }

  // ---------------------------------------------------------------- the linked list and its index

  class Node<K, V> {
    const key: K
    var value: V
    var prev: Node?<K, V>
    var next: Node?<K, V>

    constructor (key: K, value: V)
      ensures this.key == key && this.value == value
    {
      this.key, this.value := key, value;
      prev, next := null, null;
    }
  }

  ghost function At<K, V>(nodes: seq<Node<K, V>>, i: int): Node?<K, V> {
    if 0 <= i < |nodes| then nodes[i] else null
  }

  /** The nodes, in this order, form a list that is linked both ways. */
  ghost predicate Linked<K, V>(nodes: seq<Node<K, V>>, front: Node?<K, V>, tail: Node?<K, V>)
    reads nodes
  {
    && front == At(nodes, 0)
    && tail == At(nodes, |nodes| - 1)
    && (forall i {:trigger nodes[i].prev} | 0 <= i < |nodes| :: nodes[i].prev == At(nodes, i - 1))
    && (forall i {:trigger nodes[i].next} | 0 <= i < |nodes| :: nodes[i].next == At(nodes, i + 1))
    && (forall i, j | 0 <= i < j < |nodes| :: nodes[i] != nodes[j])
  }

  /** The neighbour of node k in one direction, passing over node i. */
  ghost function Beyond<K, V>(nodes: seq<Node<K, V>>, i: int, k: int, step: int): Node?<K, V> {
    if k + step == i then At(nodes, i + step) else At(nodes, k + step)
  }

  /** The list is linked both ways with node i left out. */
  ghost predicate Bypassed<K, V>(nodes: seq<Node<K, V>>, i: nat, front: Node?<K, V>, tail: Node?<K, V>)
    reads nodes
  {
    && i < |nodes|
    && front == At(nodes, if i == 0 then 1 else 0)
    && tail == At(nodes, if i == |nodes| - 1 then |nodes| - 2 else |nodes| - 1)
    && (forall k {:trigger nodes[k].prev} | 0 <= k < |nodes| && k != i :: nodes[k].prev == Beyond(nodes, i, k, -1))
    && (forall k {:trigger nodes[k].next} | 0 <= k < |nodes| && k != i :: nodes[k].next == Beyond(nodes, i, k, 1))
    && (forall j, k | 0 <= j < k < |nodes| :: nodes[j] != nodes[k])
  }

  lemma NeighboursAfterDrop<K, V>(nodes: seq<Node<K, V>>, i: nat, k: nat) returns (j: nat)
    requires i < |nodes| && k < |nodes| - 1
    ensures var rest := Drop(nodes, i);
            && j < |nodes| && j != i && rest[k] == nodes[j]
            && At(rest, k - 1) == Beyond(nodes, i, j, -1) && At(rest, k + 1) == Beyond(nodes, i, j, 1)
  {
    j := if k < i then k else k + 1;
  }

  lemma BypassedIsLinked<K, V>(nodes: seq<Node<K, V>>, i: nat, front: Node?<K, V>, tail: Node?<K, V>)
    requires Bypassed(nodes, i, front, tail)
    ensures Linked(Drop(nodes, i), front, tail)
  {
    var rest := Drop(nodes, i);
    forall k | 0 <= k < |rest| ensures rest[k].prev == At(rest, k - 1) && rest[k].next == At(rest, k + 1) {
      var j := NeighboursAfterDrop(nodes, i, k);
      assert nodes[j].prev == Beyond(nodes, i, j, -1) && nodes[j].next == Beyond(nodes, i, j, 1);
    }
  }

  /** The index finds exactly the nodes of the list, each under its own key. */
  ghost predicate Indexed<K, V>(nodes: seq<Node<K, V>>, searcher: map<K, Node<K, V>>) {
    && (forall n | n in nodes :: n.key in searcher && searcher[n.key] == n)
    && (forall k | k in searcher :: searcher[k] in nodes && searcher[k].key == k)
  }

  /** The nodes hold these entries. */
  ghost predicate Stores<K, V>(nodes: seq<Node<K, V>>, contents: Entries<K, V>)
    reads nodes
  {
    && |nodes| == |contents|
    && (forall i {:trigger nodes[i]} | 0 <= i < |nodes| :: (nodes[i].key, nodes[i].value) == contents[i])
  }

  function Drop<T>(s: seq<T>, i: nat): (r: seq<T>)
    requires i < |s|
    ensures |r| == |s| - 1
    ensures forall k | 0 <= k < |r| :: r[k] == s[if k < i then k else k + 1]
  {
    s[..i] + s[i + 1..]
  }

  lemma DropElements<T>(s: seq<T>, i: nat)
    requires i < |s|
    ensures forall x :: x in [s[i]] + Drop(s, i) <==> x in s
  {
    var moved := [s[i]] + Drop(s, i);
    forall x ensures x in moved <==> x in s {
      if x in s {
        var j :| 0 <= j < |s| && s[j] == x;
        assert moved[if j == i then 0 else if j < i then j + 1 else j] == x;
      }
    }
  }

  lemma IndexedMoved<K, V>(nodes: seq<Node<K, V>>, i: nat, searcher: map<K, Node<K, V>>)
    requires i < |nodes| && Indexed(nodes, searcher)
    ensures Indexed([nodes[i]] + Drop(nodes, i), searcher)
  {
    DropElements(nodes, i);
  }

  lemma StoresFront<K, V>(node: Node<K, V>, nodes: seq<Node<K, V>>, contents: Entries<K, V>)
    requires Stores(nodes, contents)
    ensures Stores([node] + nodes, [(node.key, node.value)] + contents)
  {
  }

  lemma IndexedFront<K, V>(node: Node<K, V>, nodes: seq<Node<K, V>>, searcher: map<K, Node<K, V>>)
    requires Indexed(nodes, searcher) && node.key !in searcher
    ensures Indexed([node] + nodes, searcher[node.key := node])
  {
  }

  lemma IndexedDropped<K, V>(nodes: seq<Node<K, V>>, i: nat, searcher: map<K, Node<K, V>>)
    requires i < |nodes| && Indexed(nodes, searcher)
    requires forall i, j | 0 <= i < j < |nodes| :: nodes[i] != nodes[j]
    ensures Indexed(Drop(nodes, i), searcher - {nodes[i].key})
    ensures forall n | n in Drop(nodes, i) :: n in nodes
  {
    var rest := Drop(nodes, i);
    DropElements(nodes, i);
    forall n | n in rest ensures n in nodes && n != nodes[i] {
      var k :| 0 <= k < |rest| && rest[k] == n;
    }
    forall n | n in nodes && n != nodes[i] ensures n in rest {
      assert n in [nodes[i]] + rest;
    }
  }

  lemma StoresDropped<K, V>(nodes: seq<Node<K, V>>, i: nat, contents: Entries<K, V>)
    requires i < |nodes| && Stores(nodes, contents)
    ensures Stores(Drop(nodes, i), Drop(contents, i))
    ensures Stores([nodes[i]] + Drop(nodes, i), [contents[i]] + Drop(contents, i))
  {
  }

  /** Taking out the only entry of a key. */
  lemma {:induction false} WithoutAt<K, V>(s: Entries<K, V>, i: nat)
    requires i < |s|
    requires forall j | 0 <= j < |s| && j != i :: s[j].0 != s[i].0
    ensures Without(s, s[i].0) == Drop(s, i)
    ensures Lookup(s, s[i].0) == Some(s[i].1)
    decreases |s|
  {
    if i == 0 {
      WithoutAbsent(s[1..], s[0].0);
      assert Drop(s, 0) == s[1..];
    } else {
      WithoutAt(s[1..], i - 1);
      assert Drop(s, i) == [s[0]] + Drop(s[1..], i - 1);
    }
  }

  lemma {:induction false} WithoutAbsent<K, V>(s: Entries<K, V>, key: K)
    requires forall j | 0 <= j < |s| :: s[j].0 != key
    ensures Without(s, key) == s && Lookup(s, key) == None
  {
    if s != [] { WithoutAbsent(s[1..], key); }
  }

  /** Where a node of the list sits, and what that means for the contents. */
  lemma Locate<K, V>(nodes: seq<Node<K, V>>, searcher: map<K, Node<K, V>>, contents: Entries<K, V>, node: Node<K, V>)
      returns (i: nat)
    requires Indexed(nodes, searcher) && Stores(nodes, contents) && node in nodes
    requires forall i, j | 0 <= i < j < |nodes| :: nodes[i] != nodes[j]
    ensures i < |nodes| && nodes[i] == node
    ensures Without(contents, node.key) == Drop(contents, i)
    ensures Lookup(contents, node.key) == Some(node.value)
  {
    i :| 0 <= i < |nodes| && nodes[i] == node;
    forall j | 0 <= j < |nodes| && j != i ensures contents[j].0 != contents[i].0 {
      assert nodes[j] in nodes && nodes[j] != nodes[i];
    }
    WithoutAt(contents, i);
  }

  lemma Absent<K, V>(nodes: seq<Node<K, V>>, searcher: map<K, Node<K, V>>, contents: Entries<K, V>, key: K)
    requires Indexed(nodes, searcher) && Stores(nodes, contents) && key !in searcher
    ensures Without(contents, key) == contents && Lookup(contents, key) == None
  {
    forall j | 0 <= j < |nodes| ensures contents[j].0 != key {
      assert nodes[j] in nodes;
    }
    WithoutAbsent(contents, key);
  }

  class LruCache<K(==), V> {
    var searcher: map<K, Node<K, V>>
    var front: Node?<K, V>
    var tail: Node?<K, V>
    ghost var nodes: seq<Node<K, V>>
    ghost var contents: Entries<K, V>

    ghost predicate Valid()
      reads this, nodes
    {
      Linked(nodes, front, tail) && Indexed(nodes, searcher) && Stores(nodes, contents)
    }

    constructor ()
      ensures Valid() && contents == [] && nodes == []
    {
      searcher, front, tail, nodes, contents := map[], null, null, [], [];
    }

    /** Closes the gap around a node; its own links are left as they are. */
    method Bypass(node: Node<K, V>, ghost i: nat)
      requires Linked(nodes, front, tail) && i < |nodes| && nodes[i] == node
      modifies this`front, this`tail, nodes`prev, nodes`next
      ensures Bypassed(nodes, i, front, tail)
    {
      BypassNext(node, i);
      BypassPrev(node, i);
    }

    method BypassPrev(node: Node<K, V>, ghost i: nat)
      requires i < |nodes| && nodes[i] == node && node.next == At(nodes, i + 1) && tail == At(nodes, |nodes| - 1)
      requires forall k {:trigger nodes[k].prev} | 0 <= k < |nodes| :: nodes[k].prev == At(nodes, k - 1)
      requires forall j, k | 0 <= j < k < |nodes| :: nodes[j] != nodes[k]
      modifies this`tail, nodes`prev
      ensures tail == At(nodes, if i == |nodes| - 1 then |nodes| - 2 else |nodes| - 1)
      ensures forall k {:trigger nodes[k].prev} | 0 <= k < |nodes| && k != i :: nodes[k].prev == Beyond(nodes, i, k, -1)
    {
      if node.next != null {
        node.next.prev := node.prev;
      }
      if tail == node {
        tail := node.prev;
      }
    }

    method BypassNext(node: Node<K, V>, ghost i: nat)
      requires Linked(nodes, front, tail) && i < |nodes| && nodes[i] == node
      modifies this`front, nodes`next
      ensures front == At(nodes, if i == 0 then 1 else 0)
      ensures forall k {:trigger nodes[k].next} | 0 <= k < |nodes| && k != i :: nodes[k].next == Beyond(nodes, i, k, 1)
      ensures node.next == old(node.next)
    {
      if node.prev != null {
        node.prev.next := node.next;
      }
      if front == node {
        front := node.next;
      }
    }

    /** Takes a node out of the list. */
    method Unlink(node: Node<K, V>, ghost i: nat)
      requires Linked(nodes, front, tail) && i < |nodes| && nodes[i] == node
      modifies this`front, this`tail, this`nodes, nodes`prev, nodes`next
      ensures nodes == Drop(old(nodes), i)
      ensures Linked(nodes, front, tail)
    {
      Bypass(node, i);
      BypassedIsLinked(nodes, i, front, tail);
      nodes := Drop(nodes, i);
    }

    /** Puts a node in front of the list. */
    method LinkFront(node: Node<K, V>)
      requires Linked(nodes, front, tail) && node !in nodes
      modifies this`front, this`tail, this`nodes, node`prev, node`next, nodes`prev
      ensures nodes == [node] + old(nodes)
      ensures Linked(nodes, front, tail)
    {
      if tail == null {
        tail := node;
      }
      node.prev := null;
      node.next := front;
      if front != null {
        front.prev := node;
      }
      front := node;
      nodes := [node] + nodes;
    }

    /** Moves a node of the list to its front. */
    method LruTouch(node: Node<K, V>, ghost i: nat)
      requires Linked(nodes, front, tail) && i < |nodes| && nodes[i] == node
      modifies this`front, this`tail, this`nodes, nodes`prev, nodes`next
      ensures nodes == [node] + Drop(old(nodes), i)
      ensures Linked(nodes, front, tail)
    {
      if node.prev == null {
        assert i == 0;
        assert nodes == [node] + Drop(nodes, 0);
        return;
      }
      Unlink(node, i);
      LinkFront(node);
    }

    method LruPush(node: Node<K, V>)
      requires Linked(nodes, front, tail) && node !in nodes
      modifies this`front, this`tail, this`nodes, this`searcher, node`prev, node`next, nodes`prev
      ensures nodes == [node] + old(nodes)
      ensures Linked(nodes, front, tail)
      ensures searcher == old(searcher)[node.key := node]
    {
      LinkFront(node);
      searcher := searcher[node.key := node];
    }

    method LruRemove(node: Node<K, V>, ghost i: nat)
      requires Linked(nodes, front, tail) && i < |nodes| && nodes[i] == node
      modifies this`front, this`tail, this`nodes, this`searcher, nodes`prev, nodes`next
      ensures nodes == Drop(old(nodes), i)
      ensures Linked(nodes, front, tail)
      ensures searcher == old(searcher) - {node.key}
    {
      Unlink(node, i);
      searcher := searcher - {node.key};
    }

    /** The effect of a touch on the contents. */
    method MoveToFront(node: Node<K, V>, ghost i: nat)
      requires Valid() && i < |nodes| && nodes[i] == node
      modifies this`front, this`tail, this`nodes, this`contents, nodes`prev, nodes`next
      ensures Valid() && (forall n :: n in nodes <==> n in old(nodes))
      ensures contents == [(node.key, node.value)] + Drop(old(contents), i)
    {
      DropElements(nodes, i);
      IndexedMoved(nodes, i, searcher);
      LruTouch(node, i);
      StoresDropped(old(nodes), i, contents);
      contents := [(node.key, node.value)] + Drop(contents, i);
    }

    method Get(key: K) returns (found: Option<V>)
      requires Valid()
      modifies this, nodes
      ensures Valid() && contents == Apply(old(contents), Op.Get(key))
      ensures found == Lookup(old(contents), key)
      ensures forall n :: n in nodes <==> n in old(nodes)
    {
      if key !in searcher {
        Absent(nodes, searcher, contents, key);
        return None;
      }
      var node := searcher[key];
      ghost var i := Locate(nodes, searcher, contents, node);
      MoveToFront(node, i);
      return Some(node.value);
    }

    method Peek(key: K) returns (found: Option<V>)
      requires Valid()
      ensures found == Lookup(contents, key)
    {
      if key !in searcher {
        Absent(nodes, searcher, contents, key);
        return None;
      }
      var node := searcher[key];
      ghost var i := Locate(nodes, searcher, contents, node);
      return Some(node.value);
    }

    method Overwrite(node: Node<K, V>, ghost i: nat, value: V)
      requires Valid() && i < |nodes| && nodes[i] == node
      modifies this`contents, node`value
      ensures Valid() && node.value == value
      ensures contents == old(contents)[i := (node.key, value)]
    {
      node.value := value;
      contents := contents[i := (node.key, value)];
    }

    method Replace(node: Node<K, V>, ghost i: nat, value: V)
      requires Valid() && i < |nodes| && nodes[i] == node
      modifies this`front, this`tail, this`nodes, this`contents, nodes
      ensures Valid() && (forall n :: n in nodes <==> n in old(nodes))
      ensures contents == [(node.key, value)] + Drop(old(contents), i)
    {
      Overwrite(node, i, value);
      assert Drop(contents, i) == Drop(old(contents), i);
      MoveToFront(node, i);
    }

    method Put(key: K, value: V)
      requires Valid()
      modifies this, nodes
      ensures Valid() && contents == Apply(old(contents), Op.Put(key, value))
      ensures forall n | n in nodes :: n in old(nodes) || fresh(n)
    {
      if key in searcher {
        var node := searcher[key];
        ghost var i := Locate(nodes, searcher, contents, node);
        Replace(node, i, value);
      } else {
        Add(key, value);
      }
    }

    method Add(key: K, value: V)
      requires Valid() && key !in searcher
      modifies this, nodes
      ensures Valid() && contents == Apply(old(contents), Op.Put(key, value))
      ensures forall n | n in nodes :: n in old(nodes) || fresh(n)
    {
      assert Apply(contents, Op.Put(key, value)) == [(key, value)] + contents by {
        Absent(nodes, searcher, contents, key);
      }
      var node := new Node(key, value);
      Insert(node);
    }

    method Insert(node: Node<K, V>)
      requires Valid() && node.key !in searcher && node !in nodes
      modifies this, node`prev, node`next, nodes`prev
      ensures Valid() && nodes == [node] + old(nodes)
      ensures contents == [(node.key, node.value)] + old(contents)
    {
      IndexedFront(node, nodes, searcher);
      LruPush(node);
      StoresFront(node, old(nodes), contents);
      contents := [(node.key, node.value)] + contents;
    }

    method Remove(key: K)
      requires Valid()
      modifies this, nodes
      ensures Valid() && contents == Apply(old(contents), Op.Remove(key))
      ensures forall n | n in nodes :: n in old(nodes)
    {
      if key in searcher {
        var node := searcher[key];
        ghost var i := Locate(nodes, searcher, contents, node);
        Discard(node, i);
      } else {
        Absent(nodes, searcher, contents, key);
      }
    }

    method Discard(node: Node<K, V>, ghost i: nat)
      requires Valid() && i < |nodes| && nodes[i] == node
      modifies this, nodes
      ensures Valid() && contents == Drop(old(contents), i)
      ensures forall n | n in nodes :: n in old(nodes)
    {
      IndexedDropped(nodes, i, searcher);
      LruRemove(node, i);
      StoresDropped(old(nodes), i, contents);
      contents := Drop(contents, i);
    }

    /** Front to tail, until the callback says stop. */
    method Foreach(func: (K, V) -> bool) returns (visited: seq<(K, V)>)
      requires Valid()
      ensures Visits(contents, func, visited)
    {
      visited := [];
      var node := front;
      while node != null
        invariant |visited| <= |nodes| && visited == contents[..|visited|]
        invariant node == At(nodes, |visited|)
        invariant forall k | 0 <= k < |visited| :: func(visited[k].0, visited[k].1)
        decreases |nodes| - |visited|
      {
        visited := visited + [(node.key, node.value)];
        if !func(node.key, node.value) {
          return;
        }
        node := node.next;
      }
    }

    /** Tail to front, until the callback says stop. */
    method ForeachReverse(func: (K, V) -> bool) returns (visited: seq<(K, V)>)
      requires Valid()
      ensures Visits(Reversed(contents), func, visited)
    {
      visited := [];
      var node := tail;
      ghost var back := Reversed(contents);
      while node != null
        invariant |visited| <= |nodes| && visited == back[..|visited|]
        invariant node == At(nodes, |nodes| - 1 - |visited|)
        invariant forall k | 0 <= k < |visited| :: func(visited[k].0, visited[k].1)
        decreases |nodes| - |visited|
      {
        visited := visited + [(node.key, node.value)];
        if !func(node.key, node.value) {
          return;
        }
        node := node.prev;
      }
    }
  }

  /** A cache driven by any list of operations holds what the list says. */
  method Execute<K(==), V>(ops: seq<Op<K, V>>) returns (cache: LruCache<K, V>)
    ensures cache.Valid() && cache.contents == Run(ops)
  {
    cache := new LruCache();
    for k := 0 to |ops|
      invariant cache.Valid() && fresh(cache) && (forall n | n in cache.nodes :: fresh(n))
      invariant cache.contents == Run(ops[..k])
    {
      assert ops[..k + 1][..k] == ops[..k];
      match ops[k] {
        case Get(key) => var _ := cache.Get(key);
        case Peek(key) => var _ := cache.Peek(key);
        case Put(key, value) => cache.Put(key, value);
        case Remove(key) => cache.Remove(key);
      }
    }
    assert ops[..|ops|] == ops;
  }
}
