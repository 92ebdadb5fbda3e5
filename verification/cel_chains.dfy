/** The chains of cel_hashmap.c: singly linked lists, one for each place of a table, and how they change. */
module CelChains {
  import opened Common

  type Key = seq<int>

  /** hashmap_node_entry */
  class Node {
    const key: Key
    var value: int
    var next: Node?

    constructor (key: Key, value: int, next: Node?)
      ensures this.key == key && this.value == value && this.next == next
    {
      this.key := key;
      this.value := value;
      this.next := next;
    }
  }

  type Pointers = map<Node, Node?>

  function At(s: seq<Node>, i: int): Node? { if 0 <= i < |s| then s[i] else null }

  /** The next pointers lead through the nodes in the order of the sequence. */
  ghost predicate Linked(s: seq<Node>, next: Pointers)
  {
    forall i {:trigger s[i] in next} {:trigger next[s[i]]} ::
      0 <= i < |s| ==> s[i] in next && next[s[i]] == At(s, i + 1)
  }

  ghost predicate ChainOk(s: seq<Node>, head: Node?, next: Pointers) {
    Distinct(s) && Linked(s, next) && head == At(s, 0)
  }

  ghost predicate ChainsOk(chains: seq<seq<Node>>, table: seq<Node?>, next: Pointers)
  {
    |chains| == |table| && forall b :: 0 <= b < |chains| ==> ChainOk(chains[b], table[b], next)
  }

  ghost predicate Same(e: Node, p: Pointers, p': Pointers) { e in p && e in p' && p[e] == p'[e] }

  /** Another list at one place: the pointers of nodes at other places must not have changed. */
  lemma ReplaceKeeps(chains: seq<seq<Node>>, table: seq<Node?>, own: map<Node, nat>, b: nat, next: Pointers,
                     s': seq<Node>, head': Node?, next': Pointers)
    requires ChainsOk(chains, table, next) && Owned(chains, own) && b < |chains|
    requires ChainOk(s', head', next')
    requires forall e :: e in own && own[e] != b && e in next ==> Same(e, next, next')
    ensures ChainsOk(chains[b := s'], table[b := head'], next')
  {
    forall c | 0 <= c < |chains| && c != b ensures ChainOk(chains[c], table[c], next') {
      var s := chains[c];
      assert ChainOk(s, table[c], next);
      forall j | 0 <= j < |s| ensures s[j] in next' && next'[s[j]] == At(s, j + 1) {
        assert own[chains[c][j]] == c;
        assert s[j] in next && Same(s[j], next, next');
      }
    }
  }

  /** A node without a place is in no chain. */
  lemma NotOwned(chains: seq<seq<Node>>, own: map<Node, nat>, e: Node, b: nat)
    requires Owned(chains, own) && e !in own && b < |chains|
    ensures e !in chains[b]
  {
    forall j | 0 <= j < |chains[b]| ensures chains[b][j] != e {
      assert chains[b][j] in own;
    }
  }

  /** The same lists, seen among more or fewer nodes. */
  lemma CarryKeeps(chains: seq<seq<Node>>, table: seq<Node?>, own: map<Node, nat>, next: Pointers,
                   own': map<Node, nat>, next': Pointers)
    requires ChainsOk(chains, table, next) && Owned(chains, own)
    requires forall b, j :: 0 <= b < |chains| && 0 <= j < |chains[b]| ==>
               var e := chains[b][j];
               (e in next ==> Same(e, next, next')) && e in own' && (e in own ==> own'[e] == own[e])
    ensures ChainsOk(chains, table, next') && Owned(chains, own')
  {
    forall c | 0 <= c < |chains| ensures ChainOk(chains[c], table[c], next') {
      var s := chains[c];
      assert ChainOk(s, table[c], next);
      forall j | 0 <= j < |s| ensures s[j] in next' && next'[s[j]] == At(s, j + 1) {
        assert s[j] in next && s[j] == chains[c][j];
        assert Same(chains[c][j], next, next');
      }
    }
    forall b, j | 0 <= b < |chains| && 0 <= j < |chains[b]|
      ensures chains[b][j] in own' && own'[chains[b][j]] == b
    {
      assert own[chains[b][j]] == b;
    }
  }

  /** A new first node. */
  lemma PushKeeps(chains: seq<seq<Node>>, table: seq<Node?>, own: map<Node, nat>, b: nat, next: Pointers, e: Node)
    requires ChainsOk(chains, table, next) && Owned(chains, own) && b < |chains|
    requires e in own && own[e] == b && e !in chains[b]
    ensures ChainsOk(chains[b := [e] + chains[b]], table[b := e], next[e := table[b]])
    ensures Owned(chains[b := [e] + chains[b]], own)
  {
    var s, t, next' := chains[b], [e] + chains[b], next[e := table[b]];
    assert ChainOk(s, table[b], next);
    forall i | 0 <= i < |t| ensures t[i] in next' && next'[t[i]] == At(t, i + 1) && t[i] in own && own[t[i]] == b {
      if i > 0 {
        assert t[i] == s[i - 1] && s[i - 1] in next && own[chains[b][i - 1]] == b;
      }
    }
    ReplaceKeeps(chains, table, own, b, next, t, e, next');
  }

  function Without(s: seq<Node>, k: nat): seq<Node>
    requires k < |s|
  {
    s[..k] + s[k + 1..]
  }

  /** A node taken out: the table or the node before it points past it. */
  lemma DropKeeps(chains: seq<seq<Node>>, table: seq<Node?>, own: map<Node, nat>, b: nat, next: Pointers, k: nat)
    requires ChainsOk(chains, table, next) && Owned(chains, own) && b < |chains| && k < |chains[b]|
    ensures chains[b][k] in next
    ensures var s := chains[b];
            var t, after := Without(s, k), next[s[k]];
            && ChainsOk(chains[b := t], if k == 0 then table[b := after] else table,
                        if k == 0 then next else next[s[k - 1] := after])
            && Owned(chains[b := t], own) && (forall e :: e in t <==> e in s && e != s[k])
  {
    var s := chains[b];
    assert ChainOk(s, table[b], next);
    assert s[k] in next && next[s[k]] == At(s, k + 1);
    var t, after := Without(s, k), next[s[k]];
    var next' := if k == 0 then next else next[s[k - 1] := after];
    forall i | 0 <= i < |t| ensures t[i] in next' && next'[t[i]] == At(t, i + 1) && t[i] in own && own[t[i]] == b {
      var o := if i < k then i else i + 1;
      assert t[i] == s[o] && s[o] in next && own[chains[b][o]] == b;
      assert o != k - 1 && k > 0 ==> s[o] != s[k - 1];
    }
    forall e ensures e in t <==> e in s && e != s[k] {
      if e in s && e != s[k] {
        var i :| 0 <= i < |s| && s[i] == e;
        assert t[if i < k then i else i - 1] == e;
      }
    }
    if k > 0 {
      assert own[chains[b][k - 1]] == b;
      assert table[b := table[b]] == table;
    }
    ReplaceKeeps(chains, table, own, b, next, t, if k == 0 then after else table[b], next');
  }

  // ---------- moving to another table ----------

  /** Nodes before `j` in chain `i`, or in an earlier chain. */
  ghost predicate Done(old': seq<seq<Node>>, i: nat, j: nat, e: Node)
  {
    exists c, k :: 0 <= c < |old'| && 0 <= k < |old'[c]| && (c < i || (c == i && k < j)) && old'[c][k] == e
  }

  ghost predicate Pending(old': seq<seq<Node>>, i: nat, j: nat, next: Pointers)
  {
    forall c, k :: 0 <= c < |old'| && 0 <= k < |old'[c]| && (c > i || (c == i && k >= j)) ==>
      old'[c][k] in next && next[old'[c][k]] == At(old'[c], k + 1)
  }

  /** A node is in the chain that it belongs to. */
  ghost predicate Arrived(e: Node, chains: seq<seq<Node>>, own: map<Node, nat>)
  {
    e in own && own[e] < |chains| && e in chains[own[e]]
  }

  /** How far the loops of rebuild_hash have come. */
  ghost predicate Moved(old': seq<seq<Node>>, i: nat, j: nat, chains: seq<seq<Node>>, table: seq<Node?>,
                        own: map<Node, nat>, next: Pointers)
  {
    && ChainsOk(chains, table, next) && Owned(chains, own) && Pending(old', i, j, next)
    && (forall b, e :: 0 <= b < |chains| && e in chains[b] ==> Done(old', i, j, e))
    && (forall c, k :: 0 <= c < |old'| && 0 <= k < |old'[c]| && (c < i || (c == i && k < j)) ==>
        Arrived(old'[c][k], chains, own))
  }

  /** Each node is at one place only, known to the old table by one number and to the new one by another. */
  ghost predicate Apart(old': seq<seq<Node>>, oldOwn: map<Node, nat>)
  {
    Owned(old', oldOwn) && forall c :: 0 <= c < |old'| ==> Distinct(old'[c])
  }

  lemma NotDone(old': seq<seq<Node>>, i: nat, j: nat, oldOwn: map<Node, nat>)
    requires Apart(old', oldOwn) && i < |old'| && j < |old'[i]|
    ensures !Done(old', i, j, old'[i][j])
  {
    var e := old'[i][j];
    assert oldOwn[old'[i][j]] == i;
    forall c, k | 0 <= c < |old'| && 0 <= k < |old'[c]| && (c < i || (c == i && k < j)) ensures old'[c][k] != e {
      assert oldOwn[old'[c][k]] == c;
      assert Distinct(old'[i]);
    }
  }

  lemma DoneMore(old': seq<seq<Node>>, i: nat, j: nat, e: Node)
    requires i < |old'| && j < |old'[i]|
    ensures Done(old', i, j + 1, e) <==> Done(old', i, j, e) || e == old'[i][j]
  {
    if Done(old', i, j + 1, e) && e != old'[i][j] {
      var c, k :| 0 <= c < |old'| && 0 <= k < |old'[c]| && (c < i || (c == i && k < j + 1)) && old'[c][k] == e;
    }
  }

  lemma PendingMore(old': seq<seq<Node>>, i: nat, j: nat, next: Pointers, oldOwn: map<Node, nat>, to: Node?)
    requires Apart(old', oldOwn) && Pending(old', i, j, next) && i < |old'| && j < |old'[i]|
    ensures Pending(old', i, j + 1, next[old'[i][j] := to])
  {
    var e := old'[i][j];
    forall c, k | 0 <= c < |old'| && 0 <= k < |old'[c]| && (c > i || (c == i && k >= j + 1))
      ensures old'[c][k] in next && old'[c][k] != e && next[old'[c][k]] == At(old'[c], k + 1)
    {
      assert oldOwn[old'[c][k]] == c && oldOwn[old'[i][j]] == i;
      if c == i {
        assert Distinct(old'[i]);
      }
    }
  }

  /** One node goes to the front of its new chain. */
  lemma MoveStep(old': seq<seq<Node>>, i: nat, j: nat, chains: seq<seq<Node>>, table: seq<Node?>,
                 own: map<Node, nat>, next: Pointers, oldOwn: map<Node, nat>, e: Node, b: nat)
    requires Moved(old', i, j, chains, table, own, next) && Apart(old', oldOwn)
    requires i < |old'| && j < |old'[i]| && e == old'[i][j] && e in own && b == own[e] < |chains| == |table|
    ensures e in next && next[e] == At(old'[i], j + 1)
    ensures Moved(old', i, j + 1, chains[b := [e] + chains[b]], table[b := e], own, next[e := table[b]])
  {
    hide Done, ChainsOk, Owned, Distinct;
    NotDone(old', i, j, oldOwn);
    assert e !in chains[b];
    PushKeeps(chains, table, own, b, next, e);
    PendingMore(old', i, j, next, oldOwn, table[b]);
    var chains' := chains[b := [e] + chains[b]];
    forall c, x | 0 <= c < |chains'| && x in chains'[c] ensures Done(old', i, j + 1, x) {
      DoneMore(old', i, j, x);
      assert x == e || x in chains[c];
    }
    forall c, k | 0 <= c < |old'| && 0 <= k < |old'[c]| && (c < i || (c == i && k < j + 1))
      ensures Arrived(old'[c][k], chains', own)
    {
      assert c < i || (c == i && k < j) ==> Arrived(old'[c][k], chains, own);
    }
  }

  lemma NextChain(old': seq<seq<Node>>, i: nat, chains: seq<seq<Node>>, table: seq<Node?>, own: map<Node, nat>,
                  next: Pointers)
    requires i < |old'| && Moved(old', i, |old'[i]|, chains, table, own, next)
    ensures Moved(old', i + 1, 0, chains, table, own, next)
  {
    hide ChainsOk, Owned;
    forall b, e | 0 <= b < |chains| && e in chains[b] ensures Done(old', i + 1, 0, e) {
      assert Done(old', i, |old'[i]|, e);
    }
  }

  lemma NothingMoved(old': seq<seq<Node>>, oldTable: seq<Node?>, chains: seq<seq<Node>>, table: seq<Node?>,
                     own: map<Node, nat>, next: Pointers)
    requires ChainsOk(old', oldTable, next) && |chains| == |table|
    requires forall b :: 0 <= b < |chains| ==> chains[b] == [] && table[b] == null
    ensures Moved(old', 0, 0, chains, table, own, next)
  {
    forall c, k | 0 <= c < |old'| && 0 <= k < |old'[c]|
        ensures old'[c][k] in next && next[old'[c][k]] == At(old'[c], k + 1) {
      assert ChainOk(old'[c], oldTable[c], next);
    }
  }
}
