/** mapx/lru.go, SyncLRU: a map into an intrusive doubly-linked list between two sentinels. Every
    method runs under the mutex, so each is one atomic operation on the object. */
module SyncLru {
  import opened Wrappers
  import opened LruSpec

  class Node {
    var key: Key
    var val: Value
    var prev: Node?
    var next: Node?

    constructor (key: Key, val: Value)
      ensures this.key == key && this.val == val && prev == null && next == null
    {
      this.key, this.val, this.prev, this.next := key, val, null, null;
    }
  }

  ghost function EntriesOf(nodes: seq<Node>): (c: seq<Entry>)
    reads (set n | n in nodes)`key, (set n | n in nodes)`val
    ensures |c| == |nodes| && forall i :: 0 <= i < |nodes| ==> c[i] == Entry(nodes[i].key, nodes[i].val)
  {
    if nodes == [] then [] else [Entry(nodes[0].key, nodes[0].val)] + EntriesOf(nodes[1..])
  }

  /** n stands between the two ends of the list. */
  ghost predicate Within(chain: seq<Node>, n: Node) {
    exists i :: 0 < i < |chain| - 1 && chain[i] == n
  }

  /** The map holds exactly the nodes between the ends, under their own keys. */
  ghost predicate Fits(chain: seq<Node>, cache: map<Key, Node>)
    reads (set n | n in chain)`key
  {
    && (forall i :: 0 < i < |chain| - 1 ==> chain[i].key in cache && cache[chain[i].key] == chain[i])
    && (forall k {:trigger Within(chain, cache[k])} :: k in cache ==> Within(chain, cache[k]) && cache[k].key == k)
  }

  /** Neighbours point at each other, and no node occurs twice. */
  ghost predicate Linked(chain: seq<Node>)
    reads (set n | n in chain)`prev, (set n | n in chain)`next
  {
    && (forall i, j :: 0 <= i < j < |chain| ==> chain[i] != chain[j])
    && (forall i :: 0 <= i < |chain| - 1 ==> chain[i].next == chain[i + 1])
    && (forall i :: 0 < i < |chain| ==> chain[i].prev == chain[i - 1])
  }

  lemma FitsMoved(was: seq<Node>, i: nat, chain: seq<Node>, cache: map<Key, Node>)
    requires Fits(was, cache) && 0 < i < |was| - 1
    requires chain == was[..i] + was[i + 1..|was| - 1] + [was[i], was[|was| - 1]]
    ensures Fits(chain, cache)
  {
    var last := |was| - 2;
    assert forall j :: 0 < j < i ==> chain[j] == was[j];
    assert forall j :: i <= j < last ==> chain[j] == was[j + 1];
    assert chain[last] == was[i];
    forall k | k in cache ensures Within(chain, cache[k]) && cache[k].key == k {
      assert Within(was, cache[k]);
      var j :| 0 < j < |was| - 1 && was[j] == cache[k];
      assert chain[if j < i then j else if j == i then last else j - 1] == cache[k];
    }
  }

  lemma SameNodes(was: seq<Node>, i: nat, chain: seq<Node>)
    requires 0 < i < |was| - 1
    requires chain == was[..i] + was[i + 1..|was| - 1] + [was[i], was[|was| - 1]]
    ensures forall m :: m in chain ==> m in was
  {
  }

  lemma MovedToEnd(c: seq<Entry>, i: nat, e: seq<Entry>)
    requires i < |c| == |e|
    requires forall p :: 0 <= p < |c| ==> e[p] == c[if p < i then p else if p < |c| - 1 then p + 1 else i]
    ensures e == c[..i] + c[i + 1..] + [c[i]]
  {
  }

  lemma EntriesMoved(was: seq<Node>, i: nat, chain: seq<Node>, c: seq<Entry>)
    requires 0 < i < |was| - 1 && c == EntriesOf(was[1..|was| - 1])
    requires chain == was[..i] + was[i + 1..|was| - 1] + [was[i], was[|was| - 1]]
    ensures EntriesOf(chain[1..|chain| - 1]) == c[..i - 1] + c[i..] + [Entry(was[i].key, was[i].val)]
  {
    var e := EntriesOf(chain[1..|chain| - 1]);
    forall p | 0 <= p < |c| ensures e[p] == c[if p < i - 1 then p else if p < |c| - 1 then p + 1 else i - 1] {
      assert chain[p + 1] == was[if p < i - 1 then p + 1 else if p < |c| - 1 then p + 2 else i];
    }
    MovedToEnd(c, i - 1, e);
  }

  lemma FitsWithoutOldest(was: seq<Node>, chain: seq<Node>, cache: map<Key, Node>)
    requires Fits(was, cache) && |was| > 2 && chain == was[..1] + was[2..]
    requires forall i, j :: 0 <= i < j < |was| ==> was[i] != was[j]
    ensures Fits(chain, cache - {was[1].key}) && |cache - {was[1].key}| == |cache| - 1
  {
    var less := cache - {was[1].key};
    assert forall j :: 0 < j < |chain| ==> chain[j] == was[j + 1];
    assert less.Keys == cache.Keys - {was[1].key};
    forall i | 0 < i < |chain| - 1 ensures chain[i].key in less && less[chain[i].key] == chain[i] {
      assert was[i + 1] == chain[i] && cache[was[i + 1].key] != cache[was[1].key];
    }
    forall k | k in less ensures Within(chain, less[k]) && less[k].key == k {
      assert Within(was, cache[k]);
      var j :| 0 < j < |was| - 1 && was[j] == cache[k];
      assert chain[j - 1] == less[k];
    }
  }

  lemma EntriesWithoutOldest(was: seq<Node>, chain: seq<Node>, c: seq<Entry>)
    requires |was| > 2 && c == EntriesOf(was[1..|was| - 1]) && chain == was[..1] + was[2..]
    ensures EntriesOf(chain[1..|chain| - 1]) == c[1..]
  {
    assert chain[1..|chain| - 1] == was[1..|was| - 1][1..];
  }

  lemma FitsAppended(was: seq<Node>, n: Node, chain: seq<Node>, cache: map<Key, Node>)
    requires Fits(was, cache) && |was| >= 2 && n.key !in cache
    requires chain == was[..|was| - 1] + [n, was[|was| - 1]]
    ensures Fits(chain, cache[n.key := n])
  {
    var more := cache[n.key := n];
    assert forall j :: 0 <= j < |was| - 1 ==> chain[j] == was[j];
    forall k | k in more ensures Within(chain, more[k]) && more[k].key == k {
      if k == n.key {
        assert chain[|was| - 1] == n;
      } else {
        assert Within(was, cache[k]);
        var j :| 0 < j < |was| - 1 && was[j] == cache[k];
        assert chain[j] == more[k];
      }
    }
  }

  lemma EntriesAppended(was: seq<Node>, n: Node, chain: seq<Node>, c: seq<Entry>)
    requires |was| >= 2 && c == EntriesOf(was[1..|was| - 1]) && chain == was[..|was| - 1] + [n, was[|was| - 1]]
    ensures EntriesOf(chain[1..|chain| - 1]) == c + [Entry(n.key, n.val)]
  {
    assert chain[1..|chain| - 1] == was[1..|was| - 1] + [n];
  }

  class SyncLRU {
    const cap: nat
    const zero: Value
    const head: Node
    const tail: Node
    var cache: map<Key, Node>

    /** All nodes in list order, sentinels included. */
    ghost var chain: seq<Node>

    ghost predicate ListOk()
      reads `chain, (set n | n in chain)`prev, (set n | n in chain)`next
    {
      Linked(chain) && |chain| >= 2 && chain[0] == head && chain[|chain| - 1] == tail
    }

    ghost predicate Valid()
      reads this, chain
    {
      ListOk() && Fits(chain, cache) && |cache| == |chain| - 2 <= cap
    }

    /** What the cache holds, from least to most recently touched. */
    ghost function Entries(): seq<Entry>
      reads `chain, (set n | n in chain)`key, (set n | n in chain)`val
      requires |chain| >= 2
    {
      EntriesOf(chain[1..|chain| - 1])
    }

    /** NewSyncLRU, :63-69. */
    constructor (n: nat, zero: Value, blank: Key)
      ensures Valid() && fresh(chain) && cap == n && this.zero == zero
      ensures Entries() == []
    {
      var h := new Node(blank, zero);
      var t := new Node(blank, zero);
      h.next := t;
      t.prev := h;
      this.cap, this.zero, this.head, this.tail, this.cache, this.chain := n, zero, h, t, map[], [h, t];
    }

    /** removeNode, :114-123, for the node at position i of the list. */
    method RemoveNode(n: Node, ghost i: nat)
      requires ListOk() && 0 < i < |chain| - 1 && chain[i] == n
      modifies `chain, (set m | m in chain)`prev, (set m | m in chain)`next
      ensures ListOk() && chain == old(chain[..i] + chain[i + 1..])
      ensures n.prev == null && n.next == null
    {
      var p, q := n.prev, n.next;
      assert p == chain[i - 1] && q == chain[i + 1];
      p.next := q;
      q.prev := p;
      n.next := null;
      n.prev := null;
      chain := chain[..i] + chain[i + 1..];
    }

    /** appendTail, :125-133. */
    method AppendTail(n: Node)
      requires ListOk() && n !in chain
      modifies `chain, (set m | m in chain)`prev, (set m | m in chain)`next, n`prev, n`next
      ensures ListOk() && chain == old(chain[..|chain| - 1]) + [n, tail]
    {
      var last := tail.prev;
      assert last == chain[|chain| - 2];
      last.next := n;
      n.prev := last;
      n.next := tail;
      tail.prev := n;
      chain := chain[..|chain| - 1] + [n, tail];
    }

    method Relink(n: Node, ghost i: nat)
      requires ListOk() && 0 < i < |chain| - 1 && chain[i] == n
      modifies `chain, (set m | m in chain)`prev, (set m | m in chain)`next
      ensures ListOk() && chain == old(chain[..i] + chain[i + 1..|chain| - 1]) + [n, tail]
      ensures forall m :: m in chain ==> m in old(chain)
    {
      ghost var was := chain;
      RemoveNode(n, i);
      assert n !in chain;
      AppendTail(n);
      assert chain == was[..i] + was[i + 1..|was| - 1] + [n, tail];
      SameNodes(was, i, chain);
    }

    /** Moves the node at position i to the recent end: :81-82, :107-108. */
    method Touch(n: Node, ghost i: nat)
      requires Valid() && 0 < i < |chain| - 1 && chain[i] == n
      modifies `chain, (set m | m in chain)`prev, (set m | m in chain)`next
      ensures Valid() && forall m :: m in chain ==> m in old(chain)
      ensures Entries() == old(Entries()[..i - 1] + Entries()[i..]) + [Entry(n.key, n.val)]
    {
      ghost var was, c := chain, Entries();
      Relink(n, i);
      assert Fits(was, cache);
      assert EntriesOf(was[1..|was| - 1]) == c;
      MovedIsValid(was, i, c);
    }

    lemma MovedIsValid(was: seq<Node>, i: nat, c: seq<Entry>)
      requires ListOk() && 0 < i < |was| - 1 && was[|was| - 1] == tail
      requires chain == was[..i] + was[i + 1..|was| - 1] + [was[i], tail]
      requires Fits(was, cache) && |cache| == |was| - 2 <= cap && c == EntriesOf(was[1..|was| - 1])
      ensures Valid() && Entries() == c[..i - 1] + c[i..] + [Entry(was[i].key, was[i].val)]
    {
      FitsMoved(was, i, chain, cache);
      EntriesMoved(was, i, chain, c);
    }

    /** The oldest node leaves the list: :87-88. */
    method DropOldest() returns (evict: Node)
      requires Valid() && |cache| > 0
      modifies `chain, (set m | m in chain)`prev, (set m | m in chain)`next
      ensures ListOk() && |chain| == old(|chain|) - 1 && forall m :: m in chain ==> m in old(chain)
      ensures Fits(chain, cache - {evict.key}) && |cache - {evict.key}| == |cache| - 1
      ensures Entries() == old(Entries())[1..]
    {
      assert head.next == chain[1];
      evict := head.next;
      ghost var was, c := chain, Entries();
      RemoveNode(evict, 1);
      assert Fits(was, cache);
      assert EntriesOf(was[1..|was| - 1]) == c;
      FitsWithoutOldest(was, chain, cache);
      EntriesWithoutOldest(was, chain, c);
    }

    /** The oldest entry leaves list and map: :87-89. */
    method Evict()
      requires Valid() && |cache| > 0
      modifies `chain, `cache, (set m | m in chain)`prev, (set m | m in chain)`next
      ensures Valid() && |cache| == old(|cache|) - 1 && forall m :: m in chain ==> m in old(chain)
      ensures cache.Keys <= old(cache.Keys)
      ensures Entries() == old(Entries())[1..]
    {
      var evict := DropOldest();
      cache := cache - {evict.key};
    }

    /** A node the map does not know joins the list: :93. */
    method Join(node: Node)
      requires Valid() && node !in chain && node.key !in cache
      modifies `chain, (set m | m in chain)`prev, (set m | m in chain)`next, node`prev, node`next
      ensures ListOk() && |chain| == old(|chain|) + 1 && forall m :: m in chain ==> m in old(chain) || m == node
      ensures Fits(chain, cache[node.key := node])
      ensures Entries() == old(Entries()) + [Entry(node.key, node.val)]
    {
      ghost var was, c := chain, Entries();
      AppendTail(node);
      assert Fits(was, cache);
      assert EntriesOf(was[1..|was| - 1]) == c;
      FitsAppended(was, node, chain, cache);
      EntriesAppended(was, node, chain, c);
    }

    /** Adds a new most recent entry: :92-94. */
    method Insert(key: Key, value: Value)
      requires Valid() && |cache| < cap && key !in cache
      modifies `chain, `cache, (set m | m in chain)`prev, (set m | m in chain)`next
      ensures Valid() && forall m :: m in chain ==> m in old(chain) || fresh(m)
      ensures Entries() == old(Entries()) + [Entry(key, value)]
    {
      ghost var c := Entries();
      var node := new Node(key, value);
      assert Entries() == c;
      Join(node);
      cache := cache[key := node];
    }

    /** The map finds exactly the entries' keys, and each at one position. */
    lemma MapFinds(key: Key) returns (i: nat)
      requires Valid()
      ensures Distinct(Entries())
      ensures key in cache <==> Has(Entries(), key)
      ensures key in cache ==> 0 < i < |chain| - 1 && chain[i] == cache[key] && Entries()[i - 1].key == key
      ensures key in cache ==> Lookup(Entries(), key) == Some(cache[key].val)
      ensures key !in cache ==> Lookup(Entries(), key) == None
    {
      var c := Entries();
      i := 0;
      forall p, q | 0 <= p < q < |c| ensures c[p].key != c[q].key { assert chain[p + 1] != chain[q + 1]; }
      LookupIsHas(c, key);
      if key in cache {
        assert Within(chain, cache[key]);
        i :| 0 < i < |chain| - 1 && chain[i] == cache[key];
        assert c[i - 1] == Entry(key, cache[key].val);
      } else {
        forall p | 0 <= p < |c| ensures c[p].key != key { assert chain[p + 1].key in cache; }
      }
    }

    /** Get, :97-112. */
    method Get(key: Key) returns (v: Value, ok: bool)
      requires Valid()
      modifies `chain, (set m | m in chain)`prev, (set m | m in chain)`next
      ensures Valid() && forall m :: m in chain ==> m in old(chain)
      ensures Entries() == AfterGet(old(Entries()), key)
      ensures ok <==> Lookup(old(Entries()), key).Some?
      ensures v == match Lookup(old(Entries()), key) case Some(x) => x case None => zero
    {
      ghost var i := MapFinds(key);
      if |cache| == 0 {
        return zero, false;
      }
      if key in cache {
        var n := cache[key];
        WithoutOne(Entries(), i - 1);
        Touch(n, i);
        return n.val, true;
      }
      return zero, false;
    }

    /** Overwrites the value in place, then moves the node: :80-82. */
    method Overwrite(n: Node, ghost i: nat, value: Value)
      requires Valid() && 0 < i < |chain| - 1 && chain[i] == n
      modifies `chain, n`val, (set m | m in chain)`prev, (set m | m in chain)`next
      ensures Valid() && forall m :: m in chain ==> m in old(chain)
      ensures Entries() == old(Entries()[..i - 1] + Entries()[i..] + [Entry(n.key, value)])
    {
      ghost var c := Entries();
      n.val := value;
      assert Entries() == c[i - 1 := Entry(n.key, value)];
      Touch(n, i);
    }

    /** Put, :71-95. */
    method Put(key: Key, value: Value)
      requires Valid()
      modifies `chain, `cache, set m | m in chain
      ensures Valid() && forall m :: m in chain ==> m in old(chain) || fresh(m)
      ensures Entries() == AfterPut(old(Entries()), cap, key, value)
    {
      if cap == 0 {
        return;
      }
      ghost var i := MapFinds(key);
      if key in cache {
        WithoutOne(Entries(), i - 1);
        Overwrite(cache[key], i, value);
        return;
      }
      MakeRoom(key);
      Insert(key, value);
    }

    /** Makes room when the cache is full: :86-90. */
    method MakeRoom(key: Key)
      requires Valid() && cap > 0 && key !in cache
      modifies `chain, `cache, (set m | m in chain)`prev, (set m | m in chain)`next
      ensures Valid() && |cache| < cap && key !in cache && forall m :: m in chain ==> m in old(chain)
      ensures Entries() == old(if |Entries()| >= cap then Entries()[1..] else Entries())
    {
      if |cache| >= cap {
        Evict();
      }
    }
  }
}
