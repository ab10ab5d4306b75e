/** The list-and-map cache of util/util/lrucache.hpp. */
module LruCache {
  import opened Wrappers

  class Entry<K, V> {
    const key: K
    const value: V
    var next: Entry?<K, V>
    var prev: Entry?<K, V>

    constructor (key: K, value: V)
      ensures this.key == key && this.value == value && next == null && prev == null
    {
      this.key, this.value, next, prev := key, value, null, null;
    }
  }

  /** The entry at position `i`, and null on either side of the list. */
  ghost function At<K, V>(nodes: seq<Entry<K, V>>, i: int): Entry?<K, V> {
    if 0 <= i < |nodes| then nodes[i] else null
  }

  /** No entry is there twice. */
  ghost predicate Apart<K, V>(nodes: seq<Entry<K, V>>) {
    forall i, j :: 0 <= i < j < |nodes| ==> nodes[i] != nodes[j]
  }

  ghost function Without<T>(s: seq<T>, at: nat): (r: seq<T>)
    requires at < |s|
    ensures |r| == |s| - 1
    ensures forall i :: 0 <= i < |r| ==> r[i] == s[if i < at then i else i + 1]
  {
    s[..at] + s[at + 1..]
  }

  /** The neighbours of position `i` once position `at` is taken out. */
  ghost predicate LinkedPast<K, V>(nodes: seq<Entry<K, V>>, i: int, at: int)
    requires 0 <= i < |nodes|
    reads nodes[i]
  {
    Linked(nodes[i], At(nodes, if i - 1 == at then i - 2 else i - 1), At(nodes, if i + 1 == at then i + 2 else i + 1))
  }

  ghost predicate Linked<K, V>(node: Entry<K, V>, prev: Entry?<K, V>, next: Entry?<K, V>)
    reads node
  {
    node.prev == prev && node.next == next
  }

  ghost predicate Maps<K, V>(entries: map<K, Entry<K, V>>, node: Entry<K, V>) {
    node.key in entries && entries[node.key] == node
  }

  /** The map and the list hold the same entries: each entry of the list is in the map under its
      key, and there are as many. */
  ghost predicate InStep<K, V>(entries: map<K, Entry<K, V>>, nodes: seq<Entry<K, V>>) {
    |entries| == |nodes| && forall i :: 0 <= i < |nodes| ==> Maps(entries, nodes[i])
  }

  /** Hence nothing else is in the map. */
  lemma {:induction false} NothingElse<K, V>(entries: map<K, Entry<K, V>>, nodes: seq<Entry<K, V>>, key: K)
    requires InStep(entries, nodes) && Apart(nodes) && key in entries
    ensures exists i :: 0 <= i < |nodes| && entries[key] == nodes[i] && nodes[i].key == key
    decreases |nodes|
  {
    var n := |nodes| - 1;
    assert entries.Keys != {};
    assert Maps(entries, nodes[n]);
    if nodes[n].key != key {
      LastErased(entries, nodes);
      NothingElse(entries - {nodes[n].key}, nodes[..n], key);
    }
  }

  ghost function Pairs<K, V>(nodes: seq<Entry<K, V>>): (r: seq<(K, V)>)
    ensures |r| == |nodes|
    ensures forall i :: 0 <= i < |r| ==> r[i] == (nodes[i].key, nodes[i].value)
  {
    seq(|nodes|, i requires 0 <= i < |nodes| => (nodes[i].key, nodes[i].value))
  }

  lemma LastErased<K, V>(entries: map<K, Entry<K, V>>, nodes: seq<Entry<K, V>>)
    requires InStep(entries, nodes) && Apart(nodes) && nodes != []
    ensures InStep(entries - {nodes[|nodes| - 1].key}, nodes[..|nodes| - 1])
  {
    var n := |nodes| - 1;
    var rest := entries - {nodes[n].key};
    assert Maps(entries, nodes[n]);
    forall i | 0 <= i < n
      ensures Maps(rest, nodes[i])
    {
      assert Maps(entries, nodes[i]) && nodes[i] != nodes[n];
    }
    assert entries.Keys == rest.Keys + {nodes[n].key};
    assert |entries.Keys| == |rest.Keys| + 1;
  }

  /** A key that is already there keeps its entry. */
  function Entered<K, V>(entries: map<K, Entry<K, V>>, node: Entry<K, V>): map<K, Entry<K, V>> {
    if node.key in entries then entries else entries[node.key := node]
  }

  lemma FirstAdded<K, V>(entries: map<K, Entry<K, V>>, nodes: seq<Entry<K, V>>, node: Entry<K, V>)
    requires InStep(entries, nodes)
    ensures node.key !in entries <==> InStep(Entered(entries, node), [node] + nodes)
  {
    if node.key !in entries {
      NewKeyAdded(entries, nodes, node);
    } else {
      assert |[node] + nodes| == |nodes| + 1;
    }
  }

  lemma NewKeyAdded<K, V>(entries: map<K, Entry<K, V>>, nodes: seq<Entry<K, V>>, node: Entry<K, V>)
    requires InStep(entries, nodes) && node.key !in entries
    ensures InStep(entries[node.key := node], [node] + nodes)
  {
    var more, grown := [node] + nodes, entries[node.key := node];
    assert grown.Keys == entries.Keys + {node.key};
    assert |grown.Keys| == |more|;
    forall i | 0 <= i < |more|
      ensures Maps(grown, more[i])
    {
      if i > 0 {
        assert Maps(entries, nodes[i - 1]);
      }
    }
  }

  /** The entry at position `i` points at its neighbours. */
  ghost predicate LinkedAt<K, V>(nodes: seq<Entry<K, V>>, i: int)
    requires 0 <= i < |nodes|
    reads nodes[i]
  {
    Linked(nodes[i], At(nodes, i - 1), At(nodes, i + 1))
  }

  class Cache<K(==), V> {
    const capacity: nat
    var entries: map<K, Entry<K, V>>
    var first: Entry?<K, V>
    var last: Entry?<K, V>
    /** The entries reachable from `first`, in order. */
    ghost var nodes: seq<Entry<K, V>>

    /** A doubly linked list without repetitions. */
    ghost predicate ListOk()
      reads this`first, this`last, this`nodes, nodes
    {
      && Apart(nodes)
      && first == At(nodes, 0) && last == At(nodes, |nodes| - 1)
      && (forall i {:trigger LinkedAt(nodes, i)} :: 0 <= i < |nodes| ==> LinkedAt(nodes, i))
    }

    ghost predicate Valid()
      reads this, nodes
    {
      capacity > 0 && ListOk() && InStep(entries, nodes) && |nodes| <= capacity
    }

    /** What an iteration yields. */
    ghost function Contents(): seq<(K, V)>
      reads this
    {
      Pairs(nodes)
    }

    constructor (capacity: nat)
      requires capacity > 0
      ensures Valid() && Contents() == [] && this.capacity == capacity
    {
      this.capacity := capacity;
      entries, first, last, nodes := map[], null, null, [];
    }

    /** The constructor of an entry: puts it in front. */
    method PushFront(node: Entry<K, V>)
      requires ListOk() && node !in nodes && Linked(node, null, null)
      modifies this`first, this`last, this`nodes, node, nodes
      ensures ListOk() && nodes == [node] + old(nodes)
    {
      var temp := first;
      first := node;
      if temp != null {
        temp.prev := first;
      }
      first.next := temp;
      if first.next == null {
        last := first;
      }
      ghost var was := nodes;
      nodes := [node] + was;
      forall i | 0 <= i < |nodes|
        ensures LinkedAt(nodes, i)
      {
        assert i > 0 ==> old(LinkedAt(was, i - 1));
      }
    }

    /** The destructor of an entry. */
    method Unlink(node: Entry<K, V>, ghost at: nat)
      requires ListOk() && at < |nodes| && nodes[at] == node
      modifies this`first, this`last, this`nodes, nodes
      ensures ListOk() && nodes == Without(old(nodes), at)
    {
      ghost var was := nodes;
      assert LinkedAt(was, at);
      BypassNode(node, at);
      if node == first {
        first := node.next;
      }
      if node == last {
        last := node.prev;
      }
      nodes := Without(was, at);
      Relinked(was, at);
    }

    /** Its neighbours point at each other. */
    method BypassNode(node: Entry<K, V>, ghost at: nat)
      requires ListOk() && at < |nodes| && nodes[at] == node
      modifies nodes
      ensures Linked(node, At(nodes, at - 1), At(nodes, at + 1))
      ensures forall i {:trigger LinkedPast(nodes, i, at)} :: 0 <= i < |nodes| && i != at ==> LinkedPast(nodes, i, at)
    {
      assert LinkedAt(nodes, at);
      if node.next != null {
        node.next.prev := node.prev;
      }
      if node.prev != null {
        node.prev.next := node.next;
      }
      forall i | 0 <= i < |nodes| && i != at
        ensures LinkedPast(nodes, i, at)
      {
        assert old(LinkedAt(nodes, i));
      }
    }

    /** Closing the gap at `at` leaves a list. */
    lemma Relinked(was: seq<Entry<K, V>>, at: nat)
      requires at < |was| && nodes == Without(was, at) && Apart(was)
      requires forall i {:trigger LinkedPast(was, i, at)} :: 0 <= i < |was| && i != at ==> LinkedPast(was, i, at)
      requires first == At(was, if at == 0 then 1 else 0)
      requires last == At(was, if at == |was| - 1 then at - 1 else |was| - 1)
      ensures ListOk()
    {
      forall i | 0 <= i < |nodes|
        ensures LinkedAt(nodes, i)
      {
        var k := if i < at then i else i + 1;
        assert LinkedPast(was, k, at);
      }
    }

    method EraseOldest()
      requires ListOk() && InStep(entries, nodes) && |nodes| > 0
      modifies this`first, this`last, this`nodes, this`entries, nodes
      ensures ListOk() && InStep(entries, nodes) && nodes == old(nodes)[..|old(nodes)| - 1]
    {
      ghost var at := |nodes| - 1;
      LastErased(entries, nodes);
      assert last == nodes[at] && Maps(entries, nodes[at]);
      var key := last.key;
      Unlink(entries[key], at);
      entries := entries - {key};
      assert Without(old(nodes), at) == old(nodes)[..at];
    }

    /** Out of step, the cache can still be used as long as nothing has to make room. */
    method Insert(key: K, value: V)
      requires Valid() || (ListOk() && |entries| < capacity)
      modifies this`first, this`last, this`nodes, this`entries, nodes
      ensures ListOk()
      ensures old(Valid()) ==> Contents() == Inserted(old(Contents()), capacity, key, value)
      ensures old(Valid()) ==> (Valid() <==> !HasKey(Kept(old(Contents()), capacity), key))
      ensures old(|entries| < capacity) ==>
                Contents() == [(key, value)] + old(Contents()) && entries.Keys == old(entries).Keys + {key}
      ensures forall i :: 0 <= i < |nodes| ==> nodes[i] in old(nodes) || fresh(nodes[i])
    {
      KeptPairs(nodes, capacity);
      MakeRoom();
      ghost var was, kept := entries, nodes;
      var node := Add(key, value);
      AddedIs(was, kept, node);
    }

    /** Insertions that never repeat a cached key leave the most recent `capacity` of them, newest first. */
    method InsertAll(pairs: seq<(K, V)>)
      requires Valid() && Contents() == [] && AllFresh(capacity, pairs)
      modifies this`first, this`last, this`nodes, this`entries, nodes
      ensures Valid() && Contents() == Run([], capacity, pairs)
      ensures |Contents()| == Min(|pairs|, capacity)
      ensures forall i :: 0 <= i < |Contents()| ==> Contents()[i] == pairs[|pairs| - 1 - i]
    {
      for i := 0 to |pairs|
        invariant Valid() && Contents() == Run([], capacity, pairs[..i])
        invariant forall i :: 0 <= i < |nodes| ==> fresh(nodes[i])
      {
        NextPair(capacity, pairs, i);
        Insert(pairs[i].0, pairs[i].1);
      }
      assert pairs[..|pairs|] == pairs;
      MostRecent(capacity, pairs);
    }

    /** None stands for std::out_of_range. */
    method Lookup(key: K) returns (r: Option<V>)
      requires Valid()
      ensures r.None? <==> !HasKey(Contents(), key)
      ensures r.Some? ==> (key, r.value) in Contents()
    {
      HasKeyInMap(entries, nodes, key);
      if key !in entries {
        return None;
      }
      NothingElse(entries, nodes, key);
      ghost var i :| 0 <= i < |nodes| && entries[key] == nodes[i];
      assert Contents()[i] == (nodes[i].key, nodes[i].value);
      return Some(entries[key].value);
    }

    /** From `begin()` to `end()`. */
    method Iterate() returns (pairs: seq<(K, V)>)
      requires ListOk()
      ensures pairs == Contents()
    {
      var entry := first;
      pairs := [];
      while entry != null
        invariant |pairs| <= |nodes| && entry == At(nodes, |pairs|)
        invariant pairs == Contents()[..|pairs|]
        decreases |nodes| - |pairs|
      {
        assert LinkedAt(nodes, |pairs|);
        assert Contents()[|pairs|] == (entry.key, entry.value);
        pairs := pairs + [(entry.key, entry.value)];
        entry := entry.next;
      }
    }

    method MakeRoom()
      requires Valid() || (ListOk() && |entries| < capacity)
      modifies this`first, this`last, this`nodes, this`entries, nodes
      ensures ListOk() && (old(Valid()) ==> InStep(entries, nodes) && nodes == Kept(old(nodes), capacity))
      ensures old(|entries| < capacity) ==> nodes == old(nodes) && entries == old(entries)
    {
      ghost var was := nodes;
      while |entries| >= capacity
        invariant ListOk() && (old(Valid()) ==> InStep(entries, nodes))
        invariant old(|entries| < capacity) ==> entries == old(entries)
        invariant nodes == was || (old(Valid()) && nodes == Kept(was, capacity))
        decreases |entries|
      {
        EraseOldest();
      }
    }

    /** The new entry enters the list in any case, and the map only under a new key. */
    method Add(key: K, value: V) returns (node: Entry<K, V>)
      requires ListOk()
      modifies this`first, this`last, this`nodes, this`entries, nodes
      ensures ListOk() && nodes == [node] + old(nodes)
      ensures node.key == key && node.value == value && fresh(node)
      ensures entries == Entered(old(entries), node)
    {
      node := new Entry(key, value);
      PushFront(node);
      entries := Entered(entries, node);
    }
  }

  /** What is left of a cache that makes room for one more. */
  function Kept<T>(contents: seq<T>, capacity: nat): seq<T>
    requires capacity > 0
  {
    if |contents| < capacity then contents else contents[..capacity - 1]
  }

  ghost predicate HasKey<K, V>(contents: seq<(K, V)>, key: K) {
    exists i :: 0 <= i < |contents| && contents[i].0 == key
  }

  function Inserted<K, V>(contents: seq<(K, V)>, capacity: nat, key: K, value: V): seq<(K, V)>
    requires capacity > 0
  {
    [(key, value)] + Kept(contents, capacity)
  }

  lemma KeptPairs<K, V>(nodes: seq<Entry<K, V>>, capacity: nat)
    requires capacity > 0
    ensures Pairs(Kept(nodes, capacity)) == Kept(Pairs(nodes), capacity)
  {
  }

  lemma FirstPair<K, V>(nodes: seq<Entry<K, V>>, node: Entry<K, V>)
    ensures Pairs([node] + nodes) == [(node.key, node.value)] + Pairs(nodes)
  {
  }

  lemma HasKeyInMap<K, V>(entries: map<K, Entry<K, V>>, nodes: seq<Entry<K, V>>, key: K)
    requires InStep(entries, nodes) && Apart(nodes)
    ensures key in entries <==> HasKey(Pairs(nodes), key)
  {
    if key in entries {
      NothingElse(entries, nodes, key);
      var i :| 0 <= i < |nodes| && nodes[i].key == key;
      assert Pairs(nodes)[i].0 == key;
    } else {
      forall i | 0 <= i < |nodes|
        ensures Pairs(nodes)[i].0 != key
      {
        assert Maps(entries, nodes[i]);
      }
    }
  }

  // ----- Runs of insertions -----

  function Run<K, V>(contents: seq<(K, V)>, capacity: nat, pairs: seq<(K, V)>): seq<(K, V)>
    requires capacity > 0
  {
    if pairs == [] then contents
    else
      var n := |pairs| - 1;
      Inserted(Run(contents, capacity, pairs[..n]), capacity, pairs[n].0, pairs[n].1)
  }

  /** Every insertion of the run finds its key gone, so that the cache stays valid. */
  ghost predicate AllFresh<K, V>(capacity: nat, pairs: seq<(K, V)>)
    requires capacity > 0
  {
    forall n :: 0 <= n < |pairs| ==> !HasKey(Kept(Run([], capacity, pairs[..n]), capacity), pairs[n].0)
  }

  function Min(a: nat, b: nat): nat {
    if a < b then a else b
  }

  /** What `Run` computes, whether or not a cache follows it. */
  lemma {:induction false} RunIs<K, V>(capacity: nat, pairs: seq<(K, V)>)
    requires capacity > 0
    ensures var r := Run([], capacity, pairs);
            && |r| == Min(|pairs|, capacity)
            && forall i :: 0 <= i < |r| ==> r[i] == pairs[|pairs| - 1 - i]
  {
    if pairs != [] {
      var front := pairs[..|pairs| - 1];
      RunIs(capacity, front);
      var kept := Kept(Run([], capacity, front), capacity);
      assert |kept| == Min(|pairs|, capacity) - 1;
      assert forall i :: 0 <= i < |kept| ==> kept[i] == pairs[|pairs| - 2 - i];
    }
  }

  /** As long as every insertion finds its key gone, the contents are the last `capacity` insertions,
      newest first. */
  lemma {:induction false} MostRecent<K, V>(capacity: nat, pairs: seq<(K, V)>)
    requires capacity > 0 && AllFresh(capacity, pairs)
    ensures var r := Run([], capacity, pairs);
            && |r| == Min(|pairs|, capacity)
            && forall i :: 0 <= i < |r| ==> r[i] == pairs[|pairs| - 1 - i]
  {
    RunIs(capacity, pairs);
  }

  /** The cache stays valid throughout a run exactly when no `capacity` consecutive insertions
      repeat a key. */
  lemma FreshWindows<K, V>(capacity: nat, pairs: seq<(K, V)>)
    requires capacity > 0
    ensures AllFresh(capacity, pairs) <==>
            forall i, j :: 0 <= i < j < |pairs| && j < i + capacity ==> pairs[i].0 != pairs[j].0
  {
    forall j | 0 <= j < |pairs|
      ensures HasKey(Kept(Run([], capacity, pairs[..j]), capacity), pairs[j].0) <==>
              exists i :: 0 <= i < j < i + capacity && pairs[i].0 == pairs[j].0
    {
      FreshWindow(capacity, pairs, j);
    }
  }

  lemma FreshWindow<K, V>(capacity: nat, pairs: seq<(K, V)>, j: nat)
    requires capacity > 0 && j < |pairs|
    ensures HasKey(Kept(Run([], capacity, pairs[..j]), capacity), pairs[j].0) <==>
            exists i :: 0 <= i < j < i + capacity && pairs[i].0 == pairs[j].0
  {
    RunIs(capacity, pairs[..j]);
    var kept := Kept(Run([], capacity, pairs[..j]), capacity);
    forall i | 0 <= i < j < i + capacity && pairs[i].0 == pairs[j].0
      ensures HasKey(kept, pairs[j].0)
    {
      assert kept[j - 1 - i] == pairs[i];
    }
  }

  lemma NextPair<K, V>(capacity: nat, pairs: seq<(K, V)>, i: nat)
    requires capacity > 0 && i < |pairs| && AllFresh(capacity, pairs)
    ensures var before := Run([], capacity, pairs[..i]);
            && !HasKey(Kept(before, capacity), pairs[i].0)
            && Run([], capacity, pairs[..i + 1]) == Inserted(before, capacity, pairs[i].0, pairs[i].1)
  {
    assert pairs[..i + 1][..i] == pairs[..i];
  }

  /** Otherwise the list can outgrow the capacity without any bound: the map does not grow with it, so
      that nothing is ever erased. */
  method RepeatKey<K(==), V>(capacity: nat, key: K, value: V, n: nat) returns (cache: Cache<K, V>)
    requires capacity > 1
    ensures fresh(cache) && cache.capacity == capacity
    ensures cache.Contents() == seq(n, _ => (key, value)) && |cache.entries| <= 1
  {
    cache := new Cache(capacity);
    for i := 0 to n
      invariant fresh(cache) && cache.capacity == capacity && cache.ListOk()
      invariant cache.Contents() == seq(i, _ => (key, value)) && cache.entries.Keys <= {key}
      invariant forall j :: 0 <= j < |cache.nodes| ==> fresh(cache.nodes[j])
    {
      OneKey(cache.entries, key);
      cache.Insert(key, value);
    }
    OneKey(cache.entries, key);
  }

  lemma OneKey<K, V>(m: map<K, V>, key: K)
    requires m.Keys <= {key}
    ensures |m| <= 1
  {
    if key in m {
      assert m.Keys == {key};
    } else {
      assert m.Keys == {};
    }
  }

  /** What `Add` does to the contents, and whether list and map are still in step. */
  lemma {:induction false} AddedIs<K, V>(entries: map<K, Entry<K, V>>, nodes: seq<Entry<K, V>>, node: Entry<K, V>)
    ensures Pairs([node] + nodes) == [(node.key, node.value)] + Pairs(nodes)
    ensures Entered(entries, node).Keys == entries.Keys + {node.key}
    ensures InStep(entries, nodes) && Apart(nodes) ==>
              (InStep(Entered(entries, node), [node] + nodes) <==> !HasKey(Pairs(nodes), node.key))
  {
    FirstPair(nodes, node);
    if InStep(entries, nodes) && Apart(nodes) {
      HasKeyInMap(entries, nodes, node.key);
      FirstAdded(entries, nodes, node);
    }
  }
}
