/** cel_hashmap.c: a hash map of chained nodes, whose table grows to a next prime. */
module CelHashmap {
  import opened Common
  import opened CelChains
  import CelMath

  /** The place of a hash code. */
  function Place(hash: nat, length: nat): (b: nat)
    requires length > 0
    ensures b < length
  {
    hash % length
  }

  /** The table grows to the first odd prime, or square of one, that is more than twice its length. */
  ghost predicate IsNewLength(length: nat, length': nat) {
    && length' > 2 * length && CelMath.OddOrSquare(length')
    && forall k :: 2 * length < k < length' ==> !CelMath.OddOrSquare(k)
  }

  /** The threshold for a length: the product with the factor, cut to an integer. */
  function Threshold(factor: real, length: nat): (t: nat)
    requires factor >= 0.0
    ensures t as real <= factor * length as real < t as real + 1.0
  {
    var x := factor * length as real;
    assert x >= 0.0;
    x.Floor
  }

  ghost function NextOf(ns: set<Node>): Pointers reads ns`next { map n | n in ns :: n.next }

  ghost function OwnOf(ns: set<Node>, hash: Key -> nat, length: nat): map<Node, nat>
    requires length > 0
  {
    map n | n in ns :: Place(hash(n.key), length)
  }

  ghost predicate AllReached(nodes: map<Key, Node>, hash: Key -> nat, chains: seq<seq<Node>>)
    requires |chains| > 0
  {
    forall k :: k in nodes ==> nodes[k] in chains[Place(hash(k), |chains|)]
  }

  ghost function ItemsOf(m: map<Key, Node>): map<Key, int> reads m.Values`value { map k | k in m :: m[k].value }

  /** The nodes are known by their keys. */
  ghost predicate Keyed(nodes: map<Key, Node>) { forall k :: k in nodes ==> nodes[k].key == k }

  /** cel_hashmap_entry; `factor` is real. */
  class HashMap {
    const hash: Key -> nat
    const factor: real
    var table: array<Node?>
    var length: nat
    var size: nat
    var threshold: nat

    /** The node of each key, and the chains. */
    ghost var nodes: map<Key, Node>
    ghost var chains: seq<seq<Node>>

    ghost predicate Valid()
      reads this, table, nodes.Values
    {
      && factor >= 0.0 && table.Length == length == |chains| > 0
      && size == |nodes| && threshold == Threshold(factor, length) && Keyed(nodes)
      && ChainsOk(chains, table[..], NextOf(nodes.Values)) && Owned(chains, OwnOf(nodes.Values, hash, length))
      && AllReached(nodes, hash, chains)
    }

    /** The map that the table stands for. */
    ghost function Items(): map<Key, int>
      reads this, nodes.Values
    {
      ItemsOf(nodes)
    }

    /** new_cel_hashmap_opacity */
    constructor (hash: Key -> nat, opacity: nat, factor: real)
      requires opacity > 0 && factor >= 0.0
      ensures Valid() && fresh(table) && Items() == map[] && this.hash == hash && this.factor == factor
              && length == opacity
    {
      this.hash, this.factor := hash, factor;
      table := new Node?[opacity](_ => null);
      length, size, threshold := opacity, 0, Threshold(factor, opacity);
      nodes, chains := map[], seq(opacity, _ => []);
    }

    // ---------- looking up ----------

    lemma Open()
      requires Valid()
      ensures factor >= 0.0 && table.Length == length == |chains| > 0 && Keyed(nodes)
      ensures size == |nodes| && threshold == Threshold(factor, length)
      ensures ChainsOk(chains, table[..], NextOf(nodes.Values)) && Owned(chains, OwnOf(nodes.Values, hash, length))
      ensures AllReached(nodes, hash, chains)
    {
    }

    /** What a walk along a chain meets. */
    lemma ChainFacts(b: nat)
      requires Valid() && b < |chains|
      ensures table[b] == At(chains[b], 0)
      ensures forall j :: 0 <= j < |chains[b]| ==>
                chains[b][j].next == At(chains[b], j + 1) && chains[b][j].key in nodes
                  && nodes[chains[b][j].key] == chains[b][j]
    {
      assert ChainOk(chains[b], table[..][b], NextOf(nodes.Values));
      forall j | 0 <= j < |chains[b]|
        ensures chains[b][j].next == At(chains[b], j + 1) && chains[b][j].key in nodes
                && nodes[chains[b][j].key] == chains[b][j]
      {
        assert chains[b][j] in NextOf(nodes.Values);
        assert chains[b][j] in nodes.Values;
      }
    }

    /** A key can only be in the chain that its hash selects. */
    lemma KeyIsReached(key: Key)
      requires Valid()
      ensures key in nodes ==> nodes[key] in chains[Place(hash(key), length)] && nodes[key].key == key
    {
    }

    /** The loop that every operation starts with; `prev` is the node before, and `k` the number of it. */
    method Walk(key: Key) returns (e: Node?, prev: Node?, ghost k: nat)
      requires Valid()
      ensures e == (if key in nodes then nodes[key] else null)
      ensures e != null ==> e.key == key
      ensures var b := Place(hash(key), length);
              e != null ==> k < |chains[b]| && chains[b][k] == e && prev == At(chains[b], k - 1)
    {
      hide Valid, Place, At, Keyed, ChainsOk, Owned, AllReached;
      Open();
      var idx := Place(hash(key), length);
      ghost var chain := chains[idx];
      ChainFacts(idx);
      KeyIsReached(key);
      e, prev, k := table[idx], null, 0;
      AtIs(chain, -1);
      while e != null
        invariant k <= |chain| && e == At(chain, k) && prev == At(chain, k - 1)
        invariant forall j :: 0 <= j < k ==> chain[j].key != key
        decreases |chain| - k
      {
        AtIs(chain, k);
        if key == e.key {
          return;
        }
        prev := e;
        e := e.next;
        k := k + 1;
      }
      AtIs(chain, k);
    }

    /** cel_hashmap_get */
    method Get(key: Key) returns (v: Option<int>)
      requires Valid()
      ensures v == if key in Items() then Some(Items()[key]) else None
    {
      var e, prev;
      ghost var k;
      e, prev, k := Walk(key);
      return if e != null then Some(e.value) else None;
    }

    /** cel_hashmap_exists */
    method Exists(key: Key) returns (r: bool)
      requires Valid()
      ensures r <==> key in Items()
    {
      var e, prev;
      ghost var k;
      e, prev, k := Walk(key);
      return e != null;
    }

    /** The map after the value of one node has changed. */
    method Assign(key: Key, e: Node, value: int) returns (v: int)
      requires Valid() && key in nodes && nodes[key] == e
      modifies e`value
      ensures Valid() && Items() == old(Items())[key := value] && v == old(Items()[key])
    {
      hide ChainsOk, Owned, AllReached;
      v := e.value;
      e.value := value;
      forall k | k in nodes && k != key ensures nodes[k] != e {
        assert nodes[k].key == k;
      }
    }

    /** cel_hashmap_set: only a key that is there. */
    method Set(key: Key, value: int) returns (v: Option<int>)
      requires Valid()
      modifies nodes.Values
      ensures Valid() && v == if key in old(Items()) then Some(old(Items())[key]) else None
      ensures Items() == if key in old(Items()) then old(Items())[key := value] else old(Items())
      ensures nodes == old(nodes)
    {
      hide Valid;
      var e, prev;
      ghost var k;
      e, prev, k := Walk(key);
      if e != null {
        var was := Assign(key, e, value);
        return Some(was);
      }
      return None;
    }

    // ---------- putting and growing ----------

    /** The body of the inner loop of rebuild_hash. */
    method MoveNode(table': array<Node?>, idx: nat, e: Node)
      requires idx < table'.Length && e in nodes.Values
      modifies table', e`next
      ensures table'[..] == old(table'[..])[idx := e]
      ensures NextOf(nodes.Values) == old(NextOf(nodes.Values))[e := old(table'[idx])]
    {
      e.next := table'[idx];
      table'[idx] := e;
    }

    ghost predicate Moving(was: seq<seq<Node>>, i: nat, j: nat, now: seq<seq<Node>>, table': array<Node?>,
                           own: map<Node, nat>)
      reads `nodes, table', nodes.Values`next
    {
      Moved(was, i, j, now, table'[..], own, NextOf(nodes.Values))
    }

    /** The inner loop of rebuild_hash. */
    method MoveChain(table': array<Node?>, first: Node?, length': nat, ghost i: nat, ghost before: seq<seq<Node>>,
                     ghost own: map<Node, nat>)
      returns (ghost now: seq<seq<Node>>)
      requires i < |chains| && first == At(chains[i], 0) && length' == |before| == table'.Length > 0
               && length == |chains|
      requires own == OwnOf(nodes.Values, hash, length') && Apart(chains, OwnOf(nodes.Values, hash, length))
      requires Moving(chains, i, 0, before, table', own)
      modifies table', nodes.Values`next
      ensures Moving(chains, i + 1, 0, now, table', own) && |now| == |before|
    {
      hide Moved, Apart, At, Place, NextOf;
      now := before;
      var e := first;
      ghost var j := 0;
      while e != null
        invariant j <= |chains[i]| && e == At(chains[i], j) && |now| == |before|
        invariant Moving(chains, i, j, now, table', own)
        decreases |chains[i]| - j
      {
        AtIs(chains[i], j);
        NodeIsKnown(i, j);
        var next := e.next;
        var idx := Place(hash(e.key), length');
        MoveStep(chains, i, j, now, table'[..], own, NextOf(nodes.Values), OwnOf(nodes.Values, hash, length), e, idx);
        PointerIs(e);
        now := now[idx := [e] + now[idx]];
        MoveNode(table', idx, e);
        e := next;
        j := j + 1;
      }
      AtIs(chains[i], j);
      NextChain(chains, i, now, table'[..], own, NextOf(nodes.Values));
    }

    lemma NodeIsKnown(i: nat, j: nat)
      requires length > 0 && Apart(chains, OwnOf(nodes.Values, hash, length)) && i < |chains| && j < |chains[i]|
      ensures chains[i][j] in nodes.Values
    {
      assert chains[i][j] in OwnOf(nodes.Values, hash, length);
    }

    lemma PointerIs(e: Node)
      requires e in nodes.Values
      ensures e in NextOf(nodes.Values) && NextOf(nodes.Values)[e] == e.next
    {
    }

    /** The outer loop of rebuild_hash. */
    method MoveChains(table': array<Node?>, length': nat, ghost before: seq<seq<Node>>, ghost own: map<Node, nat>)
      returns (ghost now: seq<seq<Node>>)
      requires length == |chains| == table.Length > 0 && length' == |before| == table'.Length > 0 && table' != table
      requires own == OwnOf(nodes.Values, hash, length') && Apart(chains, OwnOf(nodes.Values, hash, length))
      requires Moving(chains, 0, 0, before, table', own) && forall i :: 0 <= i < |chains| ==>
               table[i] == At(chains[i], 0)
      modifies table', nodes.Values`next
      ensures Moving(chains, |chains|, 0, now, table', own) && |now| == |before|
    {
      hide Moving, Apart, At, OwnOf;
      now := before;
      var i := 0;
      while i < length
        invariant i <= length && |now| == |before| && Moving(chains, i, 0, now, table', own)
      {
        now := MoveChain(table', table[i], length', i, now, own);
        i := i + 1;
      }
    }

    lemma BeforeMoving(length': nat)
      requires Valid() && length' > 0
      ensures length == |chains| == table.Length > 0 && factor >= 0.0 && Keyed(nodes) && size == |nodes|
      ensures Apart(chains, OwnOf(nodes.Values, hash, length))
      ensures Moved(chains, 0, 0, NoNodes(length'), NoHeads(length'), OwnOf(nodes.Values, hash, length'),
                    NextOf(nodes.Values))
      ensures forall i :: 0 <= i < |chains| ==> table[i] == At(chains[i], 0)
      ensures AllReached(nodes, hash, chains)
    {
      NothingMoved(chains, table[..], NoNodes(length'), NoHeads(length'), OwnOf(nodes.Values, hash, length'),
                   NextOf(nodes.Values));
      forall i | 0 <= i < |chains| ensures table[i] == At(chains[i], 0) && Distinct(chains[i]) {
        assert ChainOk(chains[i], table[..][i], NextOf(nodes.Values));
      }
    }

    /** After the loops every node is in its new chain. */
    lemma AllMoved(now: seq<seq<Node>>, table': array<Node?>)
      requires |chains| > 0 && |now| > 0 && Keyed(nodes) && AllReached(nodes, hash, chains)
      requires Moving(chains, |chains|, 0, now, table', OwnOf(nodes.Values, hash, |now|))
      ensures ChainsOk(now, table'[..], NextOf(nodes.Values)) && Owned(now, OwnOf(nodes.Values, hash, |now|))
      ensures AllReached(nodes, hash, now)
    {
      forall k | k in nodes ensures nodes[k] in now[Place(hash(k), |now|)] {
        var c := Place(hash(k), |chains|);
        var j :| 0 <= j < |chains[c]| && chains[c][j] == nodes[k];
        assert Arrived(chains[c][j], now, OwnOf(nodes.Values, hash, |now|));
      }
    }

    /** rebuild_hash: every node moves to a table whose length is the next prime, as CelMath finds it. */
    method Rebuild()
      requires Valid()
      modifies `table, `length, `threshold, `chains, nodes.Values`next
      ensures Valid() && fresh(table) && nodes == old(nodes) && size == old(size)
      ensures IsNewLength(old(length), length)
    {
      hide Moved, Apart, Place, At, NextOf, OwnOf, AllReached, Keyed, ChainsOk, Owned, NoNodes, NoHeads;
      var length' := CelMath.NextPrime(length * 2 + 1);
      BeforeMoving(length');
      var table' := EmptyTable(length');
      ghost var now := NoNodes(length');
      now := MoveChains(table', length', now, OwnOf(nodes.Values, hash, length'));
      AllMoved(now, table');
      table := table';
      length := length';
      threshold := Threshold(factor, length');
      chains := now;
    }

    /** What holds of the table once a new node is at the front of its chain. */
    lemma PutFacts(key: Key, node: Node)
      requires Valid() && key !in nodes && node.key == key && node !in nodes.Values
      ensures var b := Place(hash(key), length);
              var ns, cs := nodes.Values + {node}, chains[b := [node] + chains[b]];
              && b < table.Length == |chains| == length && nodes[key := node].Values == ns
              && |nodes[key := node]| == |nodes| + 1
              && ChainsOk(cs, table[..][b := node], NextOf(nodes.Values)[node := table[b]])
              && Owned(cs, OwnOf(ns, hash, length)) && AllReached(nodes[key := node], hash, cs)
              && Keyed(nodes[key := node])
    {
      hide Valid, AllReached, Place, Owned, ChainsOk, Keyed, NextOf;
      Open();
      var b := Place(hash(key), length);
      var own, own' := OwnOf(nodes.Values, hash, length), OwnOf(nodes.Values + {node}, hash, length);
      PutValues(key, node);
      NodesAreKnown();
      CarryKeeps(chains, table[..], own, NextOf(nodes.Values), own', NextOf(nodes.Values));
      NotOwned(chains, own, node, b);
      PushKeeps(chains, table[..], own', b, NextOf(nodes.Values), node);
      PutReached(key, node, b);
    }

    lemma PutValues(key: Key, node: Node)
      requires key !in nodes && node.key == key && Keyed(nodes)
      ensures nodes[key := node].Values == nodes.Values + {node} && |nodes[key := node]| == |nodes| + 1
              && Keyed(nodes[key := node])
    {
      assert nodes[key := node][key] == node;
      forall n | n in nodes.Values ensures n in nodes[key := node].Values {
        var k :| k in nodes && nodes[k] == n;
        assert nodes[key := node][k] == n;
      }
    }

    /** Each node is in the chain that the hash value of its key selects. */
    lemma InItsChain(b: nat, j: nat)
      requires Valid() && b < |chains| && j < |chains[b]|
      ensures hash(chains[b][j].key) % length == b
    {
      assert OwnOf(nodes.Values, hash, length)[chains[b][j]] == b;
    }

    lemma NodesAreKnown()
      requires Valid()
      ensures forall b, j :: 0 <= b < |chains| && 0 <= j < |chains[b]| ==>
                chains[b][j] in nodes.Values && chains[b][j] in NextOf(nodes.Values)
    {
      forall b, j | 0 <= b < |chains| && 0 <= j < |chains[b]| ensures chains[b][j] in nodes.Values {
        assert chains[b][j] in OwnOf(nodes.Values, hash, length);
      }
    }

    lemma PutReached(key: Key, node: Node, b: nat)
      requires |chains| > 0 && AllReached(nodes, hash, chains) && b == Place(hash(key), |chains|)
      ensures AllReached(nodes[key := node], hash, chains[b := [node] + chains[b]])
    {
      hide Place;
    }

    /** The new node of cel_hashmap_put, before the size is looked at. */
    method Insert(key: Key, value: int)
      requires Valid() && key !in nodes
      modifies `nodes, `chains, `size, table
      ensures Valid() && size == old(size) + 1 && fresh(nodes.Values - old(nodes.Values))
      ensures ItemsOf(nodes) == old(ItemsOf(nodes))[key := value]
    {
      hide Valid, ChainsOk, Owned, AllReached, Place, Keyed, NextOf, OwnOf, Threshold, ItemsOf;
      Open();
      var idx := Place(hash(key), length);
      ghost var ns, m := nodes.Values, nodes;
      var node := new Node(key, value, table[idx]);
      PutFacts(key, node);
      OneMore(ns, node);
      OneMoreItem(m, key, node);
      ghost var items := ItemsOf(m)[key := value];
      ghost var t := table[..][idx := node];
      table[idx] := node;
      assert table[..] == t && ItemsOf(m[key := node]) == items;
      Adopt(size + 1, m[key := node], chains[idx := [node] + chains[idx]]);
    }

    /** The new size, and the view of the nodes and chains that goes with the links as they are now. */
    method Adopt(size': nat, ghost nodes': map<Key, Node>, ghost chains': seq<seq<Node>>)
      requires factor >= 0.0 && table.Length == length == |chains'| > 0 && threshold == Threshold(factor, length)
      requires size' == |nodes'| && Keyed(nodes') && AllReached(nodes', hash, chains')
      requires ChainsOk(chains', table[..], NextOf(nodes'.Values)) && Owned(chains', OwnOf(nodes'.Values, hash, length))
      modifies `size, `nodes, `chains
      ensures Valid() && size == size' && nodes == nodes' && ItemsOf(nodes) == old(ItemsOf(nodes'))
    {
      hide ChainsOk, Owned, AllReached, Keyed, NextOf, OwnOf, Threshold;
      size := size';
      nodes := nodes';
      chains := chains';
    }

    /** cel_hashmap_put */
    method Put(key: Key, value: int) returns (v: Option<int>)
      requires Valid()
      modifies this, table, nodes.Values
      ensures Valid() && Items() == old(Items())[key := value]
      ensures v == if key in old(Items()) then Some(old(Items())[key]) else None
      ensures if key in old(Items()) || old(size) < old(threshold) then length == old(length) && table == old(table)
              else IsNewLength(old(length), length)
      ensures old(size) <= old(threshold) && factor * (old(length) + 1) as real >= 1.0 ==> size <= threshold
      ensures fresh(nodes.Values - old(nodes.Values)) && (table == old(table) || fresh(table))
    {
      hide Valid, Threshold, ItemsOf, IsNewLength;
      var e, prev;
      ghost var k;
      e, prev, k := Walk(key);
      ItemsHas(key);
      if e != null {
        var was := Assign(key, e, value);
        return Some(was);
      }
      PutNew(key, value);
      return None;
    }

    lemma ItemsHas(key: Key)
      ensures key in Items() <==> key in nodes
    {
    }

    /** cel_hashmap_put, for a key that is not there. */
    method PutNew(key: Key, value: int)
      requires Valid() && key !in nodes
      modifies this, table, nodes.Values
      ensures Valid() && Items() == old(Items())[key := value]
      ensures if old(size) < old(threshold) then length == old(length) && table == old(table)
              else IsNewLength(old(length), length)
      ensures old(size) <= old(threshold) && factor * (old(length) + 1) as real >= 1.0 ==> size <= threshold
      ensures fresh(nodes.Values - old(nodes.Values)) && (table == old(table) || fresh(table))
    {
      hide Valid, Threshold, ItemsOf, IsNewLength;
      SizeFacts();
      Insert(key, value);
      SizeFacts();
      if size > threshold {
        Grow();
      }
    }

    /** The table grows, and its threshold with it. */
    method Grow()
      requires Valid()
      modifies `table, `length, `threshold, `chains, nodes.Values`next
      ensures Valid() && fresh(table) && nodes == old(nodes) && size == old(size)
      ensures IsNewLength(old(length), length)
      ensures Items() == old(Items())
      ensures factor * (old(length) + 1) as real >= 1.0 ==> threshold >= old(threshold) + 1
    {
      hide Valid, Threshold, ItemsOf;
      SizeFacts();
      ghost var l := length;
      Rebuild();
      SizeFacts();
      if factor * (l + 1) as real >= 1.0 {
        GrowthIsEnough(factor, l, length);
      }
    }

    lemma SizeFacts()
      requires Valid()
      ensures factor >= 0.0 && threshold == Threshold(factor, length)
    {
    }

    /** What holds of the table once a node is taken out of its chain. */
    lemma RemoveFacts(key: Key, k: nat)
      requires Valid() && key in nodes
      requires var b := Place(hash(key), length); k < |chains[b]| && chains[b][k] == nodes[key]
      ensures var b := Place(hash(key), length);
              var e, rest, cs := nodes[key], nodes - {key}, chains[b := Without(chains[b], k)];
              && b < table.Length == |chains| == length && |rest| == |nodes| - 1 >= 0
              && rest.Values == nodes.Values - {e}
              && (k > 0 ==> chains[b][k - 1] in nodes.Values && chains[b][k - 1] != e)
              && (var next := if k == 0 then NextOf(nodes.Values) else NextOf(nodes.Values)[chains[b][k - 1] := e.next];
                  ChainsOk(cs, if k == 0 then table[..][b := e.next] else table[..], next - {e}))
              && Owned(cs, OwnOf(rest.Values, hash, length)) && AllReached(rest, hash, cs) && Keyed(rest)
    {
      hide Valid, AllReached, Place, Owned, ChainsOk, Keyed, NextOf, OwnOf, Without;
      Open();
      var b := Place(hash(key), length);
      var e, cs := nodes[key], chains[b := Without(chains[b], k)];
      var own, next0 := OwnOf(nodes.Values, hash, length), NextOf(nodes.Values);
      RestValues(key);
      NodesAreKnown();
      ChainFacts(b);
      ChainIsDistinct(b, k);
      DropKeeps(chains, table[..], own, b, next0, k);
      PointerIs(e);
      var next := if k == 0 then next0 else next0[chains[b][k - 1] := e.next];
      var t := if k == 0 then table[..][b := e.next] else table[..];
      NextDomain(nodes.Values);
      assert nodes[key] !in Without(chains[b], k);
      RestKeeps(key, b, cs, t, next);
      RestReached(key, b, k);
    }

    lemma ChainIsDistinct(b: nat, k: nat)
      requires Valid() && b < |chains| && k < |chains[b]|
      ensures k > 0 ==> chains[b][k - 1] != chains[b][k]
    {
      assert ChainOk(chains[b], table[..][b], NextOf(nodes.Values));
    }

    lemma RestKeeps(key: Key, b: nat, cs: seq<seq<Node>>, t: seq<Node?>, next: Pointers)
      requires key in nodes && Keyed(nodes) && length > 0 && b == Place(hash(key), length) && |cs| == length
      requires ChainsOk(cs, t, next) && Owned(cs, OwnOf(nodes.Values, hash, length)) && nodes[key] !in cs[b]
      requires forall n :: n in nodes.Values ==> n in next
      ensures ChainsOk(cs, t, next - {nodes[key]}) && Owned(cs, OwnOf(nodes.Values - {nodes[key]}, hash, length))
    {
      var e, own := nodes[key], OwnOf(nodes.Values, hash, length);
      forall c, j | 0 <= c < |cs| && 0 <= j < |cs[c]|
        ensures var x := cs[c][j]; x in nodes.Values && x != e && x in next
      {
        assert cs[c][j] in own && own[cs[c][j]] == c;
        assert cs[c][j] in cs[c];
        assert own[e] == b;
      }
      hide ChainsOk, Owned, Place;
      CarryKeeps(cs, t, own, next, OwnOf(nodes.Values - {e}, hash, length), next - {e});
    }

    lemma RestReached(key: Key, b: nat, k: nat)
      requires key in nodes && Keyed(nodes) && |chains| > 0 && AllReached(nodes, hash, chains) && b < |chains|
      requires k < |chains[b]| && chains[b][k] == nodes[key]
      requires forall e :: e in Without(chains[b], k) <==> e in chains[b] && e != chains[b][k]
      ensures AllReached(nodes - {key}, hash, chains[b := Without(chains[b], k)])
    {
      hide Place, Without;
      forall x | x in nodes && x != key ensures nodes[x] != nodes[key] {
        assert nodes[x].key == x;
      }
    }

    lemma RestValues(key: Key)
      requires key in nodes && Keyed(nodes)
      ensures (nodes - {key}).Values == nodes.Values - {nodes[key]} && |nodes - {key}| == |nodes| - 1
      ensures |nodes| >= 1 && Keyed(nodes - {key})
    {
      var rest := nodes - {key};
      forall n | n in nodes.Values && n != nodes[key] ensures n in rest.Values {
        var k :| k in nodes && nodes[k] == n;
        assert rest[k] == n;
      }
      assert nodes == rest[key := nodes[key]];
    }

    /** The node found by cel_hashmap_remove is taken out. */
    method TakeOut(key: Key, e: Node, prev: Node?, ghost k: nat)
      requires Valid() && key in nodes && nodes[key] == e
      requires var b := Place(hash(key), length); k < |chains[b]| && chains[b][k] == e && prev == At(chains[b], k - 1)
      modifies `nodes, `chains, `size, table, nodes.Values`next
      ensures Valid() && nodes == old(nodes) - {key}
    {
      hide Valid, ChainsOk, Owned, AllReached, Place, Keyed, At, NextOf, OwnOf, Without, Threshold;
      Open();
      var idx := Place(hash(key), length);
      AtIs(chains[idx], k - 1);
      RemoveFacts(key, k);
      ghost var ns, rest, cs := nodes.Values, nodes - {key}, chains[idx := Without(chains[idx], k)];
      ghost var t := if k == 0 then table[..][idx := e.next] else table[..];
      if prev == null {
        table[idx] := e.next;
      } else {
        Bypass(ns, prev, e);
      }
      assert table[..] == t;
      OneLess(ns, e);
      Adopt(size - 1, rest, cs);
    }

    /** cel_hashmap_remove */
    method Remove(key: Key) returns (v: Option<int>)
      requires Valid()
      modifies `nodes, `chains, `size, table, nodes.Values`next
      ensures Valid() && Items() == old(Items()) - {key} && size <= old(size)
      ensures v == if key in old(Items()) then Some(old(Items())[key]) else None
      ensures nodes == old(nodes) - {key}
    {
      hide Valid, Place, At;
      var e, prev;
      ghost var k;
      e, prev, k := Walk(key);
      if e == null {
        assert nodes - {key} == nodes;
        return None;
      }
      v := Some(e.value);
      SizeIs();
      TakeOut(key, e, prev, k);
      SizeIs();
    }

    lemma SizeIs()
      requires Valid()
      ensures size == |nodes|
    {
    }
  }

  // ---------- any sequence of calls ----------

  datatype Call = ToPut(key: Key, value: int) | ToSet(key: Key, value: int) | ToRemove(key: Key)

  function Meant(m: map<Key, int>, c: Call): map<Key, int> {
    match c
    case ToPut(key, value) => m[key := value]
    case ToSet(key, value) => if key in m then m[key := value] else m
    case ToRemove(key) => m - {key}
  }

  function AllMeant(m: map<Key, int>, cs: seq<Call>): map<Key, int> {
    if cs == [] then m else Meant(AllMeant(m, cs[..|cs| - 1]), cs[|cs| - 1])
  }

  /** Any sequence of calls agrees with a plain map, and a map within its threshold stays there. */
  method Perform(h: HashMap, cs: seq<Call>)
    requires h.Valid()
    modifies h, h.table, h.nodes.Values
    ensures h.Valid() && h.Items() == AllMeant(old(h.Items()), cs)
    ensures old(h.size) <= old(h.threshold) && h.factor * (old(h.length) + 1) as real >= 1.0 ==> h.size <= h.threshold
  {
    hide HashMap.Valid, ItemsOf;
    var i := 0;
    ghost var m, l := h.Items(), h.length;
    while i < |cs|
      invariant i <= |cs| && h.Valid() && h.Items() == AllMeant(m, cs[..i]) && h.length >= l
      invariant fresh(h.nodes.Values - old(h.nodes.Values)) && (h.table == old(h.table) || fresh(h.table))
      invariant old(h.size) <= old(h.threshold) && h.factor * (l + 1) as real >= 1.0 ==> h.size <= h.threshold
    {
      assert cs[..i + 1][..i] == cs[..i];
      OpenFactor(h);
      Wider(h.factor, (l + 1) as real, (h.length + 1) as real);
      match cs[i] {
        case ToPut(key, value) => var _ := h.Put(key, value);
        case ToSet(key, value) => var _ := h.Set(key, value);
        case ToRemove(key) => var _ := h.Remove(key);
      }
      i := i + 1;
    }
    assert cs[..i] == cs;
  }

  lemma OpenFactor(h: HashMap)
    requires h.Valid()
    ensures h.factor >= 0.0
  {
  }

  /** One more than the old threshold is within the new one, if the factor leaves room for one element. */
  lemma GrowthIsEnough(factor: real, l: nat, l': nat)
    requires factor >= 0.0 && factor * (l + 1) as real >= 1.0 && l' >= 2 * l + 1
    ensures Threshold(factor, l) + 1 <= Threshold(factor, l')
  {
    var a, u, b := l as real, (l + 1) as real, l' as real;
    assert b >= a + u;
    Spread(factor, a, u, b);
    FloorStep(factor * a, factor * b);
  }

  lemma FloorStep(x: real, y: real)
    requires y >= x + 1.0
    ensures x.Floor + 1 <= y.Floor
  {
    assert x.Floor as real <= x && y < y.Floor as real + 1.0;
  }

  lemma Spread(f: real, a: real, u: real, b: real)
    requires f >= 0.0 && b >= a + u && f * u >= 1.0
    ensures f * b >= f * a + 1.0
  {
    assert f * (a + u) == f * a + f * u;
    Wider(f, a + u, b);
  }

  lemma Wider(f: real, x: real, y: real)
    requires f >= 0.0 && x <= y
    ensures f * x <= f * y
  {
    assert f * (y - x) >= 0.0;
  }

  lemma OneMore(ns: set<Node>, node: Node)
    ensures NextOf(ns + {node}) == NextOf(ns)[node := node.next]
  {
  }

  lemma OneMoreItem(m: map<Key, Node>, key: Key, node: Node)
    ensures ItemsOf(m[key := node]) == ItemsOf(m)[key := node.value]
  {
  }

  lemma NextDomain(ns: set<Node>)
    ensures forall n :: n in ns ==> n in NextOf(ns)
  {
  }

  lemma OneLess(ns: set<Node>, e: Node)
    ensures NextOf(ns - {e}) == NextOf(ns) - {e}
  {
  }

  /** The node before points past a node. */
  method Bypass(ghost ns: set<Node>, prev: Node, e: Node)
    requires prev in ns && prev != e
    modifies prev`next
    ensures NextOf(ns) == old(NextOf(ns))[prev := e.next] && e.next == old(e.next)
  {
    prev.next := e.next;
  }

  ghost function NoNodes(n: nat): (cs: seq<seq<Node>>)
    ensures |cs| == n
  {
    seq(n, _ => [])
  }

  ghost function NoHeads(n: nat): (t: seq<Node?>)
    ensures |t| == n
  {
    seq(n, _ => null)
  }

  /** create_node_blocks */
  method EmptyTable(n: nat) returns (table: array<Node?>)
    ensures fresh(table) && table[..] == NoHeads(n)
  {
    table := new Node?[n](_ => null);
  }

  lemma AtIs(s: seq<Node>, i: int)
    ensures At(s, i) == if 0 <= i < |s| then s[i] else null
  {
  }
}