/** datrie.c: a trie over byte strings in two parallel arrays, built level by level from a sorted dictionary. */
module Datrie {
  import opened Common

  /** A byte of a C string, other than its end. */
  type Letter = b: int | 1 <= b < 256 witness 1

  type Key = seq<Letter>

  const KSIZE_MAX: nat := 32
  const SCALE_NODES: nat := 255
  const BLOCK_NODES: nat := 262144
  const BASE_ROOT: nat := 1

  /** A node of the double array (da_node_t). */
  datatype Node = Node(base: nat, check: nat, value: nat)

  const ZERO := Node(0, 0, 0)

  /** An entry of the dictionary (dt_node_t). */
  datatype Entry = Entry(key: Key, value: nat)

  // ---------- order of keys ----------

  /** The order of strings as unsigned bytes. */
  predicate Less(a: Key, b: Key)
  {
    b != [] && (a == [] || a[0] < b[0] || (a[0] == b[0] && Less(a[1..], b[1..])))
  }

  /** The first byte that differs decides; a string is above its proper prefixes. */
  lemma {:induction false} LessIff(a: Key, b: Key)
    ensures Less(a, b) <==>
            exists k: nat :: k <= |a| && k < |b| && a[..k] == b[..k] && (k == |a| || a[k] < b[k])
  {
    if Less(a, b) {
      if a == [] || a[0] < b[0] {
        assert a[..0] == b[..0];
      } else {
        LessIff(a[1..], b[1..]);
        var k: nat :| k <= |a[1..]| && k < |b[1..]| && a[1..][..k] == b[1..][..k]
                      && (k == |a[1..]| || a[1..][k] < b[1..][k]);
        assert a[..k + 1] == [a[0]] + a[1..][..k] && b[..k + 1] == [b[0]] + b[1..][..k];
      }
    }
    if k: nat :| k <= |a| && k < |b| && a[..k] == b[..k] && (k == |a| || a[k] < b[k]) {
      if k > 0 {
        assert a[0] == a[..k][0] == b[..k][0] == b[0];
        assert a[1..][..k - 1] == a[..k][1..] == b[..k][1..] == b[1..][..k - 1];
        assert k - 1 == |a[1..]| || a[1..][k - 1] < b[1..][k - 1];
        LessIff(a[1..], b[1..]);
      }
    }
  }

  predicate Ascending(dt: seq<Entry>) { forall i, j :: 0 <= i < j < |dt| ==> Less(dt[i].key, dt[j].key) }

  predicate Dictionary(dt: seq<Entry>)
  {
    Ascending(dt) && forall i :: 0 <= i < |dt| ==> 1 <= |dt[i].key| <= 32
  }

  /** What stands between two strings with a common prefix has the prefix. */
  lemma {:induction false} Between(w: Key, x: Key, y: Key, z: Key)
    requires w <= x && w <= z && Less(x, y) && Less(y, z)
    ensures w <= y
  {
    if w != [] {
      Between(w[1..], x[1..], y[1..], z[1..]);
      assert w == [w[0]] + w[1..] && y == [y[0]] + y[1..];
    }
  }

  /** Of two strings with a common prefix, the next byte decides, if it differs. */
  lemma {:induction false} NextByte(w: Key, x: Key, y: Key)
    requires w <= x && w <= y && |w| < |x| && |w| < |y| && Less(x, y)
    ensures x[|w|] <= y[|w|]
  {
    if w != [] {
      NextByte(w[1..], x[1..], y[1..]);
    }
  }

  /** A prefix is not above. */
  lemma {:induction false} PrefixNotAbove(x: Key, y: Key)
    requires x <= y
    ensures !Less(y, x)
  {
    if x != [] {
      PrefixNotAbove(x[1..], y[1..]);
    }
  }

  /** The value of a key of the dictionary, and 0 for what is none. */
  ghost function ValueOf(dt: seq<Entry>, w: Key): nat
  {
    if dt == [] then 0 else if dt[|dt| - 1].key == w then dt[|dt| - 1].value else ValueOf(dt[..|dt| - 1], w)
  }

  lemma {:induction false} ValueOfKey(dt: seq<Entry>, i: nat)
    requires Ascending(dt) && i < |dt|
    ensures ValueOf(dt, dt[i].key) == dt[i].value
  {
    var n := |dt| - 1;
    if i < n {
      assert Less(dt[i].key, dt[n].key);
      if dt[i].key == dt[n].key {
        PrefixNotAbove(dt[i].key, dt[n].key);
      }
      ValueOfKey(dt[..n], i);
    }
  }

  lemma {:induction false} ValueOfNone(dt: seq<Entry>, w: Key)
    requires forall i :: 0 <= i < |dt| ==> dt[i].key != w
    ensures ValueOf(dt, w) == 0
  {
    if dt != [] {
      ValueOfNone(dt[..|dt| - 1], w);
    }
  }

  // ---------- the trie ----------

  /** Where each prefix has its node, and which prefix a node is for. */
  datatype Trie = Trie(slots: map<Key, nat>, owner: map<nat, Key>)

  const EMPTY_TRIE := Trie(map[[] := BASE_ROOT], map[BASE_ROOT := []])

  function Parent(w: Key): Key
    requires w != []
  {
    w[..|w| - 1]
  }

  function Last(w: Key): Letter
    requires w != []
  {
    w[|w| - 1]
  }

  /** Prefixes that have a node when level `off` is worked on and `i` entries are done. */
  ghost predicate Done(dt: seq<Entry>, off: nat, i: nat, w: Key)
  {
    w == [] || exists j :: 0 <= j < |dt| && w <= dt[j].key && (|w| <= off || (|w| == off + 1 && j < i))
  }

  /** The node of a prefix is the one that the base of its parent leads to. */
  ghost predicate NodeOk(da: seq<Node>, nodes: nat, t: Trie, w: Key)
    requires w in t.slots
  {
    var s := t.slots[w];
    && s < |da| && s in t.owner && t.owner[s] == w
    && if w == [] then s == BASE_ROOT && da[s].check == 0
       else
         && 2 <= s < nodes && Parent(w) in t.slots && t.slots[Parent(w)] < |da|
         && da[s].check == t.slots[Parent(w)]
         && da[t.slots[Parent(w)]].base > 0 && s == da[t.slots[Parent(w)]].base + Last(w)
  }

  /** A base is set for a first child, and stays within reach of the allocated part. */
  ghost predicate BaseOk(da: seq<Node>, nodes: nat, t: Trie, w: Key)
    requires w in t.slots
  {
    t.slots[w] < |da| &&
    var base := da[t.slots[w]].base;
    base > 0 ==> (base == 2 || base < nodes) && exists c: Letter :: w + [c] in t.slots
  }

  /** A node in use belongs to a prefix. */
  ghost predicate UsedOk(da: seq<Node>, t: Trie, s: nat)
    requires s < |da|
  {
    da[s].check > 0 ==> s in t.owner && t.owner[s] in t.slots && t.slots[t.owner[s]] == s && t.owner[s] != []
  }

  ghost predicate ValueOk(da: seq<Node>, t: Trie, dt: seq<Entry>, w: Key)
    requires w in t.slots
  {
    t.slots[w] < |da| && da[t.slots[w]].value == ValueOf(dt, w)
  }

  /** There is room for a child of any node in use. */
  predicate Roomy(size: nat, nodes: nat) { size > nodes + SCALE_NODES && size >= BLOCK_NODES }

  ghost predicate TrieOk(da: seq<Node>, nodes: nat, t: Trie, dt: seq<Entry>)
  {
    && [] in t.slots
    && (forall w {:trigger NodeOk(da, nodes, t, w)} :: w in t.slots ==> NodeOk(da, nodes, t, w))
    && (forall w {:trigger BaseOk(da, nodes, t, w)} :: w in t.slots ==> BaseOk(da, nodes, t, w))
    && (forall w {:trigger ValueOk(da, t, dt, w)} :: w in t.slots ==> ValueOk(da, t, dt, w))
    && (forall s {:trigger UsedOk(da, t, s)} :: 0 <= s < |da| ==> UsedOk(da, t, s))
    && (forall s :: nodes <= s < |da| && s != BASE_ROOT ==> da[s] == ZERO)
  }

  /** The nodes built so far are those of the prefixes done so far. */
  ghost predicate Covers(t: Trie, dt: seq<Entry>, off: nat, i: nat)
  {
    forall w :: w in t.slots <==> Done(dt, off, i, w)
  }

  /** The last entry before `i` that is long enough for level `off`, or -1. */
  function LastLong(dt: seq<Entry>, off: nat, i: nat): (p: int)
    requires i <= |dt|
    ensures -1 <= p < i && (p >= 0 ==> |dt[p].key| > off) && forall j :: p < j < i ==> |dt[j].key| <= off
  {
    if i == 0 then -1 else if |dt[i - 1].key| > off then i - 1 else LastLong(dt, off, i - 1)
  }

  /** The last entry that level `off` had to do with owns the last node. */
  ghost predicate LastIsLast(nodes: nat, t: Trie, dt: seq<Entry>, off: nat, i: nat)
    requires i <= |dt|
  {
    var p := LastLong(dt, off, i);
    p >= 0 ==> dt[p].key[..off + 1] in t.slots && t.slots[dt[p].key[..off + 1]] + 1 == nodes
  }

  /** One step down is possible in the arrays exactly where it is possible in the trie. */
  lemma StepIff(da: seq<Node>, nodes: nat, t: Trie, dt: seq<Entry>, w: Key, c: Letter)
    requires TrieOk(da, nodes, t, dt) && Roomy(|da|, nodes) && w in t.slots
    ensures var s := t.slots[w];
            && s < |da| && da[s].base + c < |da|
            && (da[s].base + c < nodes && da[da[s].base + c].check == s <==> w + [c] in t.slots)
            && (w + [c] in t.slots ==> t.slots[w + [c]] == da[s].base + c)
  {
    var s := t.slots[w];
    assert NodeOk(da, nodes, t, w) && BaseOk(da, nodes, t, w);
    var x := da[s].base + c;
    if w + [c] in t.slots {
      assert NodeOk(da, nodes, t, w + [c]);
      assert Parent(w + [c]) == w;
    }
    if da[x].check == s {
      assert s >= BASE_ROOT;
      assert UsedOk(da, t, x);
      var u := t.owner[x];
      assert NodeOk(da, nodes, t, u);
      assert Parent(u) == w by {
        assert NodeOk(da, nodes, t, Parent(u));
      }
      assert u == w + [Last(u)];
    }
  }

  /** No two prefixes share a node. */
  lemma OwnNode(da: seq<Node>, nodes: nat, t: Trie, dt: seq<Entry>, v: Key, w: Key)
    requires TrieOk(da, nodes, t, dt) && v in t.slots && w in t.slots && v != w
    ensures t.slots[v] != t.slots[w]
  {
    assert NodeOk(da, nodes, t, v) && NodeOk(da, nodes, t, w);
  }

  // ---------- one entry at one level ----------

  /** The entry that level `off` had to do with last shares every prefix that an earlier one shares with this one. */
  lemma SharedPrefix(nodes: nat, t: Trie, dt: seq<Entry>, off: nat, i: nat, w: Key, j: nat)
    requires Dictionary(dt) && i < |dt| && LastIsLast(nodes, t, dt, off, i)
    requires w <= dt[i].key && j < i && w <= dt[j].key && |dt[j].key| > off
    ensures var p := LastLong(dt, off, i);
            && p >= 0 && w <= dt[p].key && Less(dt[p].key, dt[i].key)
            && dt[p].key[..off + 1] in t.slots && t.slots[dt[p].key[..off + 1]] + 1 == nodes
  {
    var p := LastLong(dt, off, i);
    assert p >= j;
    if j < p {
      Between(w, dt[j].key, dt[p].key, dt[i].key);
    }
  }

  /** A child that is new lies behind all nodes so far: the build only ever moves forward. */
  lemma ChildIsFresh(da: seq<Node>, nodes: nat, t: Trie, dt: seq<Entry>, off: nat, i: nat, w: Key, ch: Letter)
    requires Dictionary(dt) && i < |dt| && off < |dt[i].key| && w == dt[i].key[..off] && ch == dt[i].key[off]
    requires TrieOk(da, nodes, t, dt) && Covers(t, dt, off, i) && LastIsLast(nodes, t, dt, off, i)
    requires w in t.slots && t.slots[w] < |da| && da[t.slots[w]].base > 0 && w + [ch] !in t.slots
    ensures da[t.slots[w]].base + ch >= nodes
  {
    hide Dictionary, LastIsLast, Less, Covers, Done;
    SiblingIsDone(da, nodes, t, dt, off, i, w);
    var j :| 0 <= j < i && w <= dt[j].key && |dt[j].key| > off;
    SharedPrefix(nodes, t, dt, off, i, w, j);
    var p := LastLong(dt, off, i);
    var u := dt[p].key[..off + 1];
    NextByte(w, dt[p].key, dt[i].key);
    assert u == w + [dt[p].key[off]];
    assert NodeOk(da, nodes, t, u) && Parent(u) == w;
  }

  lemma SiblingIsDone(da: seq<Node>, nodes: nat, t: Trie, dt: seq<Entry>, off: nat, i: nat, w: Key)
    requires i <= |dt| && |w| == off && TrieOk(da, nodes, t, dt) && Covers(t, dt, off, i)
    requires w in t.slots && t.slots[w] < |da| && da[t.slots[w]].base > 0
    ensures exists j :: 0 <= j < i && w <= dt[j].key && |dt[j].key| > off
  {
    assert BaseOk(da, nodes, t, w);
    var c: Letter :| w + [c] in t.slots;
    assert Done(dt, off, i, w + [c]);
    var j :| 0 <= j < |dt| && w + [c] <= dt[j].key && j < i;
    assert w <= dt[j].key;
  }

  /** An entry whose prefix has a node already: nothing to do. */
  lemma KnownStep(nodes: nat, t: Trie, dt: seq<Entry>, off: nat, i: nat)
    requires Dictionary(dt) && i < |dt| && off < |dt[i].key|
    requires Covers(t, dt, off, i) && LastIsLast(nodes, t, dt, off, i) && dt[i].key[..off + 1] in t.slots
    ensures Covers(t, dt, off, i + 1) && LastIsLast(nodes, t, dt, off, i + 1)
  {
    hide Dictionary, Less;
    var u := dt[i].key[..off + 1];
    assert Done(dt, off, i, u);
    var j :| 0 <= j < |dt| && u <= dt[j].key && j < i;
    SharedPrefix(nodes, t, dt, off, i, u, j);
    var p := LastLong(dt, off, i);
    assert dt[p].key[..off + 1] == u;
    MoreCovered(t, dt, off, i);
  }

  lemma MoreCovered(t: Trie, dt: seq<Entry>, off: nat, i: nat)
    requires i < |dt| && Covers(t, dt, off, i) && (off < |dt[i].key| ==> dt[i].key[..off + 1] in t.slots)
    ensures Covers(t, dt, off, i + 1)
  {
    hide Done;
    forall w ensures w in t.slots <==> Done(dt, off, i + 1, w) {
      DoneMore(dt, off, i, w);
    }
  }

  /** One more entry at a level: one more prefix is done. */
  lemma DoneMore(dt: seq<Entry>, off: nat, i: nat, w: Key)
    requires i < |dt|
    ensures Done(dt, off, i + 1, w) <==> Done(dt, off, i, w) || (off < |dt[i].key| && w == dt[i].key[..off + 1])
  {
    if off < |dt[i].key| && w == dt[i].key[..off + 1] {
      assert w <= dt[i].key;
    }
    if Done(dt, off, i + 1, w) && w != [] {
      var j :| 0 <= j < |dt| && w <= dt[j].key && (|w| <= off || (|w| == off + 1 && j < i + 1));
    }
  }

  /** An entry too short for a level: nothing to do. */
  lemma ShortStep(nodes: nat, t: Trie, dt: seq<Entry>, off: nat, i: nat)
    requires i < |dt| && |dt[i].key| <= off && Covers(t, dt, off, i) && LastIsLast(nodes, t, dt, off, i)
    ensures Covers(t, dt, off, i + 1) && LastIsLast(nodes, t, dt, off, i + 1)
  {
    MoreCovered(t, dt, off, i);
  }

  /** A level done is the next one begun. */
  lemma NextLevel(nodes: nat, t: Trie, dt: seq<Entry>, off: nat)
    requires Covers(t, dt, off, |dt|)
    ensures Covers(t, dt, off + 1, 0) && LastIsLast(nodes, t, dt, off + 1, 0)
  {
    forall w ensures Done(dt, off, |dt|, w) <==> Done(dt, off + 1, 0, w) {
    }
  }

  // ---------- a new node ----------

  /** The arrays with a child `ch` for the node at `ps`. */
  function WithChild(da: seq<Node>, ps: nat, base: nat, x: nat, value: nat): (r: seq<Node>)
    requires ps < |da| && x < |da|
    ensures |r| == |da|
  {
    da[ps := Node(base, da[ps].check, da[ps].value)][x := Node(0, ps, value)]
  }

  function WithPrefix(t: Trie, u: Key, x: nat): Trie { Trie(t.slots[u := x], t.owner[x := u]) }

  /** The place for a child is free: behind all nodes, and reachable from its parent. */
  ghost predicate Place(da: seq<Node>, nodes: nat, t: Trie, w: Key, ch: Letter, base: nat)
  {
    && w in t.slots && w + [ch] !in t.slots && t.slots[w] < |da| && nodes <= base + ch < |da|
    && base > 0 && (base == 2 || base < base + ch) && (da[t.slots[w]].base == 0 || da[t.slots[w]].base == base)
  }

  lemma NewTrie(da: seq<Node>, nodes: nat, t: Trie, dt: seq<Entry>, w: Key, ch: Letter, base: nat)
    requires TrieOk(da, nodes, t, dt) && Place(da, nodes, t, w, ch, base)
    ensures t.slots[w] != base + ch
    ensures TrieOk(WithChild(da, t.slots[w], base, base + ch, ValueOf(dt, w + [ch])), base + ch + 1,
                   WithPrefix(t, w + [ch], base + ch), dt)
  {
    var ps, u, x := t.slots[w], w + [ch], base + ch;
    assert ps != x && ps < |da| && nodes <= x < |da| && (ps < nodes || ps == BASE_ROOT) by {
      assert NodeOk(da, nodes, t, w);
    }
    var da', t' := WithChild(da, ps, base, x, ValueOf(dt, u)), WithPrefix(t, u, x);
    NewNodes(da, nodes, t, dt, w, ch, base, da', t');
    NewUses(da, nodes, t, dt, w, ch, base, da', t');
    NewZero(da, nodes, ps, base, x, ValueOf(dt, u));
    hide NodeOk, BaseOk, ValueOk, UsedOk, ValueOf, WithChild, Place;
    assert [] in t'.slots;
  }

  lemma NewNodes(da: seq<Node>, nodes: nat, t: Trie, dt: seq<Entry>, w: Key, ch: Letter, base: nat, da': seq<Node>,
                 t': Trie)
    requires TrieOk(da, nodes, t, dt) && Place(da, nodes, t, w, ch, base) && t.slots[w] != base + ch
    requires da' == WithChild(da, t.slots[w], base, base + ch, ValueOf(dt, w + [ch]))
             && t' == WithPrefix(t, w + [ch], base + ch)
    ensures forall v {:trigger NodeOk(da', base + ch + 1, t', v)} :: v in t'.slots ==> NodeOk(da', base + ch + 1, t', v)
    ensures forall v {:trigger BaseOk(da', base + ch + 1, t', v)} :: v in t'.slots ==> BaseOk(da', base + ch + 1, t', v)
    ensures forall v {:trigger ValueOk(da', t', dt, v)} :: v in t'.slots ==> ValueOk(da', t', dt, v)
  {
    hide NodeOk, BaseOk, ValueOk, UsedOk, ValueOf, WithChild, TrieOk;
    var n := base + ch + 1;
    forall v | v in t'.slots ensures NodeOk(da', n, t', v) && BaseOk(da', n, t', v) && ValueOk(da', t', dt, v) {
      NewNode(da, nodes, t, dt, w, ch, base, v);
      NewBase(da, nodes, t, dt, w, ch, base, v);
    }
  }

  lemma NewUses(da: seq<Node>, nodes: nat, t: Trie, dt: seq<Entry>, w: Key, ch: Letter, base: nat, da': seq<Node>,
                t': Trie)
    requires TrieOk(da, nodes, t, dt) && Place(da, nodes, t, w, ch, base) && t.slots[w] != base + ch
    requires da' == WithChild(da, t.slots[w], base, base + ch, ValueOf(dt, w + [ch]))
             && t' == WithPrefix(t, w + [ch], base + ch)
    ensures forall s {:trigger UsedOk(da', t', s)} :: 0 <= s < |da'| ==> UsedOk(da', t', s)
  {
    hide NodeOk, BaseOk, ValueOk, UsedOk, ValueOf, WithChild, TrieOk;
    forall s | 0 <= s < |da'| ensures UsedOk(da', t', s) {
      NewUsed(da, nodes, t, dt, w, ch, base, s);
    }
  }

  lemma NewZero(da: seq<Node>, nodes: nat, ps: nat, base: nat, x: nat, value: nat)
    requires ps < |da| && nodes <= x < |da| && (ps < nodes || ps == BASE_ROOT)
    requires forall s :: nodes <= s < |da| && s != BASE_ROOT ==> da[s] == ZERO
    ensures |WithChild(da, ps, base, x, value)| == |da|
    ensures forall s :: x + 1 <= s < |da| && s != BASE_ROOT ==> WithChild(da, ps, base, x, value)[s] == ZERO
  {
    var t := WithChild(da, ps, base, x, value);
    forall s | x + 1 <= s < |da| && s != BASE_ROOT ensures t[s] == ZERO {
      assert da[s] == ZERO;
    }
  }

  lemma NewUsed(da: seq<Node>, nodes: nat, t: Trie, dt: seq<Entry>, w: Key, ch: Letter, base: nat, s: nat)
    requires TrieOk(da, nodes, t, dt) && Place(da, nodes, t, w, ch, base) && t.slots[w] != base + ch && s < |da|
    ensures var x := base + ch;
            UsedOk(WithChild(da, t.slots[w], base, x, ValueOf(dt, w + [ch])), WithPrefix(t, w + [ch], x), s)
  {
    assert UsedOk(da, t, s) && da[base + ch] == ZERO;
  }

  lemma NewNode(da: seq<Node>, nodes: nat, t: Trie, dt: seq<Entry>, w: Key, ch: Letter, base: nat, v: Key)
    requires TrieOk(da, nodes, t, dt) && Place(da, nodes, t, w, ch, base) && t.slots[w] != base + ch
    requires v in t.slots || v == w + [ch]
    ensures var x := base + ch;
            NodeOk(WithChild(da, t.slots[w], base, x, ValueOf(dt, w + [ch])), x + 1, WithPrefix(t, w + [ch], x), v)
  {
    var u := w + [ch];
    assert Parent(u) == w && Last(u) == ch;
    assert NodeOk(da, nodes, t, w);
    if v != u {
      assert NodeOk(da, nodes, t, v);
      if v != [] {
        assert NodeOk(da, nodes, t, Parent(v));
      }
    }
  }

  lemma NewBase(da: seq<Node>, nodes: nat, t: Trie, dt: seq<Entry>, w: Key, ch: Letter, base: nat, v: Key)
    requires TrieOk(da, nodes, t, dt) && Place(da, nodes, t, w, ch, base) && t.slots[w] != base + ch
    requires v in t.slots || v == w + [ch]
    ensures var x := base + ch;
            var da', t' := WithChild(da, t.slots[w], base, x, ValueOf(dt, w + [ch])), WithPrefix(t, w + [ch], x);
            BaseOk(da', x + 1, t', v) && ValueOk(da', t', dt, v)
  {
    var u, x := w + [ch], base + ch;
    var da', t' := WithChild(da, t.slots[w], base, x, ValueOf(dt, u)), WithPrefix(t, u, x);
    if v == u {
      assert da'[t'.slots[v]] == Node(0, t.slots[w], ValueOf(dt, u));
    } else {
      assert NodeOk(da, nodes, t, v) && NodeOk(da, nodes, t, w);
      assert BaseOk(da, nodes, t, v) && ValueOk(da, t, dt, v);
      if v == w {
        assert v + [ch] in t'.slots;
      } else {
        assert t.slots[v] != t.slots[w];
        if da[t.slots[v]].base > 0 {
          var c: Letter :| v + [c] in t.slots;
          assert v + [c] in t'.slots;
        }
      }
    }
  }

  /** The value stored with a new node is that of its prefix: a prefix of a later key is new only if it is no key. */
  lemma NewValue(t: Trie, dt: seq<Entry>, off: nat, i: nat)
    requires Dictionary(dt) && i < |dt| && off < |dt[i].key| && Covers(t, dt, off, i)
             && dt[i].key[..off + 1] !in t.slots
    ensures ValueOf(dt, dt[i].key[..off + 1]) == if |dt[i].key| == off + 1 then dt[i].value else 0
  {
    var u := dt[i].key[..off + 1];
    if |dt[i].key| == off + 1 {
      assert u == dt[i].key;
      ValueOfKey(dt, i);
    } else {
      forall j | 0 <= j < |dt| ensures dt[j].key != u {
        if j < i {
          assert !Done(dt, off, i, u);
        } else if j > i {
          PrefixNotAbove(u, dt[i].key);
        }
      }
      ValueOfNone(dt, u);
    }
  }

  /** The new node takes its entry one step on. */
  lemma NewStep(nodes: nat, t: Trie, dt: seq<Entry>, off: nat, i: nat, x: nat)
    requires i < |dt| && off < |dt[i].key| && Covers(t, dt, off, i)
    ensures var t' := WithPrefix(t, dt[i].key[..off + 1], x);
            Covers(t', dt, off, i + 1) && LastIsLast(x + 1, t', dt, off, i + 1)
  {
    hide Done;
    var t' := WithPrefix(t, dt[i].key[..off + 1], x);
    forall w ensures w in t'.slots <==> Done(dt, off, i + 1, w) {
      DoneMore(dt, off, i, w);
    }
  }

  /** More nodes, not used yet. */
  function Extended(da: seq<Node>, total: nat): seq<Node>
    requires |da| <= total
  {
    da + seq(total - |da|, _ => ZERO)
  }

  lemma ExtendedTrie(da: seq<Node>, nodes: nat, t: Trie, dt: seq<Entry>, total: nat)
    requires TrieOk(da, nodes, t, dt) && |da| <= total
    ensures TrieOk(Extended(da, total), nodes, t, dt)
  {
    var da' := Extended(da, total);
    assert forall s :: 0 <= s < |da| ==> da'[s] == da[s];
    forall w | w in t.slots ensures NodeOk(da', nodes, t, w) && BaseOk(da', nodes, t, w) && ValueOk(da', t, dt, w) {
      assert NodeOk(da, nodes, t, w) && BaseOk(da, nodes, t, w) && ValueOk(da, t, dt, w);
    }
    forall s | 0 <= s < |da'| ensures UsedOk(da', t, s) {
      if s < |da| {
        assert UsedOk(da, t, s);
      }
    }
  }

  lemma RootSlot(da: seq<Node>, nodes: nat, t: Trie, dt: seq<Entry>)
    requires TrieOk(da, nodes, t, dt)
    ensures [] in t.slots && t.slots[[]] == BASE_ROOT < |da|
  {
    assert NodeOk(da, nodes, t, []);
  }

  lemma ParentHasNode(da: seq<Node>, nodes: nat, t: Trie, dt: seq<Entry>, k: Key, m: nat)
    requires TrieOk(da, nodes, t, dt) && m < |k| && k[..m + 1] in t.slots
    ensures k[..m] in t.slots
  {
    assert NodeOk(da, nodes, t, k[..m + 1]);
    assert Parent(k[..m + 1]) == k[..m];
  }

  /** Without a node for a prefix there is none for anything longer. */
  lemma {:induction false} NoSuchPrefix(da: seq<Node>, nodes: nat, t: Trie, dt: seq<Entry>, k: Key, m: nat, n: nat)
    requires TrieOk(da, nodes, t, dt) && m <= n <= |k| && k[..m] !in t.slots
    ensures k[..n] !in t.slots
    decreases n - m
  {
    if m < n {
      if k[..m + 1] in t.slots {
        ParentHasNode(da, nodes, t, dt, k, m);
      }
      NoSuchPrefix(da, nodes, t, dt, k, m + 1, n);
    }
  }

  lemma ParentIsDone(t: Trie, dt: seq<Entry>, off: nat, i: nat)
    requires i < |dt| && off < |dt[i].key| && Covers(t, dt, off, i)
    ensures dt[i].key[..off] in t.slots
  {
    var w := dt[i].key[..off];
    assert w <= dt[i].key;
    assert Done(dt, off, i, w);
  }

  /** Where the child for an entry is or goes. */
  lemma PlaceFacts(da: seq<Node>, nodes: nat, t: Trie, dt: seq<Entry>, off: nat, i: nat, base: nat)
    requires Dictionary(dt) && i < |dt| && off < |dt[i].key| && dt[i].key[..off] in t.slots
    requires TrieOk(da, nodes, t, dt) && Roomy(|da|, nodes) && Covers(t, dt, off, i) && LastIsLast(nodes, t, dt, off, i)
    requires t.slots[dt[i].key[..off]] < |da|
    requires var set', ch := da[t.slots[dt[i].key[..off]]].base, dt[i].key[off];
             base == if set' > 0 then set' else if nodes <= ch then BASE_ROOT + 1 else nodes - ch
    ensures var w, ch := dt[i].key[..off], dt[i].key[off];
            var ps, x := t.slots[w], base + ch;
            && 0 < ps != x < |da| && base + SCALE_NODES <= |da|
            && (if w + [ch] in t.slots then da[x].check == ps && base == da[ps].base
                else Place(da, nodes, t, w, ch, base) && da[x] == ZERO)
  {
    hide Dictionary, Covers, LastIsLast, ValueOk;
    var w, ch := dt[i].key[..off], dt[i].key[off];
    var ps, x := t.slots[w], base + ch;
    assert NodeOk(da, nodes, t, w) && BaseOk(da, nodes, t, w);
    StepIff(da, nodes, t, dt, w, ch);
    if w + [ch] in t.slots {
      assert NodeOk(da, nodes, t, w + [ch]);
      assert Parent(w + [ch]) == w;
    } else if da[ps].base > 0 {
      ChildIsFresh(da, nodes, t, dt, off, i, w, ch);
    }
  }

  // ---------- the structure ----------

  /** struct dat; `total` is the length of the array. */
  class Dat {
    var da: array<Node>
    var nodes: nat
    var dt: seq<Entry>
    ghost var trie: Trie

    /** dat_new */
    constructor ()
      ensures fresh(da) && da.Length == 0 && nodes == 0 && dt == [] && trie == EMPTY_TRIE
    {
      da, nodes, dt, trie := new Node[0], 0, [], EMPTY_TRIE;
    }

    /** dat_add */
    method Add(k: Key, v: nat)
      requires |k| <= KSIZE_MAX
      modifies `dt
      ensures dt == old(dt) + [Entry(k, v)]
    {
      dt := dt + [Entry(k, v)];
    }

    ghost predicate Building(off: nat, i: nat)
      reads this, da
    {
      && TrieOk(da[..], nodes, trie, dt) && Roomy(da.Length, nodes) && i <= |dt|
      && Covers(trie, dt, off, i) && LastIsLast(nodes, trie, dt, off, i)
    }

    /** Every prefix of a key has its node, and nothing else has. */
    ghost predicate Built()
      reads this, da
    {
      && Dictionary(dt) && TrieOk(da[..], nodes, trie, dt) && Roomy(da.Length, nodes)
      && forall w :: w in trie.slots <==> w == [] || exists j :: 0 <= j < |dt| && w <= dt[j].key
    }

    /** grow: afterwards there is room for a child of any node. */
    method Grow() returns (r: int)
      requires da.Length == 0 || da.Length >= BLOCK_NODES
      modifies `da
      ensures r >= 0 && Roomy(da.Length, nodes) && da.Length >= old(da.Length) && (da == old(da) || fresh(da))
      ensures da[..] == Extended(old(da[..]), da.Length)
      ensures da.Length == if nodes + 255 < old(da.Length) then old(da.Length)
                           else ((nodes + 255) / 262144 + 1) * 262144
    {
      if nodes + SCALE_NODES < da.Length {
        assert da[..] == Extended(old(da[..]), da.Length);
        return 1;
      }
      var newTotal := ((nodes + SCALE_NODES) / BLOCK_NODES + 1) * BLOCK_NODES;
      var was := da[..];
      da := new Node[newTotal](i => if 0 <= i < |was| then was[i] else ZERO);
      assert da[..] == Extended(was, da.Length);
      return 0;
    }

    /** dat_get_internal */
    method GetInternal(k: Key, ksize: nat) returns (cur: Option<nat>)
      requires TrieOk(da[..], nodes, trie, dt) && Roomy(da.Length, nodes) && ksize <= |k|
      ensures cur.Some? <==> k[..ksize] in trie.slots
      ensures cur.Some? ==> cur.value == trie.slots[k[..ksize]] && cur.value < da.Length
    {
      hide TrieOk;
      RootSlot(da[..], nodes, trie, dt);
      var parent := BASE_ROOT;
      var off := 0;
      assert k[..0] == [];
      while off < ksize
        invariant off <= ksize && k[..off] in trie.slots && parent == trie.slots[k[..off]] && parent < da.Length
      {
        var ch := k[off];
        StepIff(da[..], nodes, trie, dt, k[..off], ch);
        assert k[..off] + [ch] == k[..off + 1];
        if da[parent].base + ch >= nodes {
          NoSuchPrefix(da[..], nodes, trie, dt, k, off + 1, ksize);
          return None;
        }
        var next := da[parent].base + ch;
        if da[next].check != parent {
          NoSuchPrefix(da[..], nodes, trie, dt, k, off + 1, ksize);
          return None;
        }
        parent := next;
        off := off + 1;
      }
      return Some(parent);
    }

    /** dat_add_internal: none of its assertions fails, and there is always room. */
    method AddInternal(i: nat, off: nat) returns (r: int)
      requires Dictionary(dt) && i < |dt| && off < |dt[i].key| && Building(off, i)
      modifies this, da
      ensures r >= 0 && Building(off, i + 1) && dt == old(dt) && (da == old(da) || fresh(da))
    {
      hide TrieOk, Covers, LastIsLast, Dictionary, ValueOf;
      var k := dt[i].key;
      var ch := k[off];
      ParentIsDone(trie, dt, off, i);
      var p := GetInternal(k, off);
      assert p.Some?;
      var parent := p.value;
      ghost var w := k[..off];
      assert w + [ch] == k[..off + 1];
      StepIff(da[..], nodes, trie, dt, w, ch);
      var base := da[parent].base;
      if base == 0 {
        base := if nodes <= ch then BASE_ROOT + 1 else nodes - ch;
      }
      PlaceFacts(da[..], nodes, trie, dt, off, i, base);
      ghost var was, n := da[..], nodes;
      da[parent] := da[parent].(base := base);
      var cur := base + ch;
      if da[cur].check != 0 {
        assert da[cur].check == parent;
        KnownStep(nodes, trie, dt, off, i);
        assert da[..] == was;
        return 1;
      }
      assert nodes <= base + ch;
      nodes := base + ch + 1;
      da[cur] := da[cur].(check := parent);
      assert da[cur].check != 0;
      if |k| == off + 1 {
        da[cur] := da[cur].(value := dt[i].value);
      }
      NewTrie(was, n, trie, dt, w, ch, base);
      NewValue(trie, dt, off, i);
      NewStep(n, trie, dt, off, i, cur);
      trie := WithPrefix(trie, k[..off + 1], cur);
      assert da[..] == WithChild(was, parent, base, cur, ValueOf(dt, k[..off + 1]));
      if da.Length < base + SCALE_NODES {
        return -1;
      }
      ghost var now := da[..];
      var g := Grow();
      ExtendedTrie(now, nodes, trie, dt, da.Length);
      if g < 0 {
        return -1;
      }
      return 0;
    }

    /** dat_build */
    method Build() returns (r: int)
      requires Dictionary(dt) && da.Length == 0 && nodes == 0 && trie == EMPTY_TRIE
      modifies this
      ensures r == 0 && Built() && dt == old(dt) && fresh(da)
    {
      hide TrieOk, Covers, LastIsLast, Dictionary;
      var g := Grow();
      NothingBuilt(da.Length, dt);
      var off := 0;
      while off < KSIZE_MAX
        invariant off <= KSIZE_MAX && Building(off, 0) && Dictionary(dt) && dt == old(dt) && fresh(da)
      {
        var flag := false;
        var i := 0;
        while i < |dt|
          invariant i <= |dt| && Building(off, i) && Dictionary(dt) && dt == old(dt) && fresh(da)
          invariant flag <==> exists j :: 0 <= j < i && |dt[j].key| > off
        {
          if |dt[i].key| <= off {
            ShortStep(nodes, trie, dt, off, i);
          } else {
            var a := AddInternal(i, off);
            if a < 0 {
              return -1;
            }
            flag := true;
          }
          i := i + 1;
        }
        NextLevel(nodes, trie, dt, off);
        off := off + 1;
        if !flag {
          AllCovered(trie, dt, off);
          return 0;
        }
      }
      LongestKey(dt);
      AllCovered(trie, dt, off);
      return 0;
    }

    /** dat_get: succeeds exactly for the prefixes of keys, with the value of a key and 0 for what is none. */
    method Get(k: Key) returns (r: int, v: nat)
      requires Built() && k != []
      ensures r == 0 || r == -1
      ensures r == 0 <==> exists i :: 0 <= i < |dt| && k <= dt[i].key
      ensures forall i :: 0 <= i < |dt| && dt[i].key == k ==> r == 0 && v == dt[i].value
      ensures (forall i :: 0 <= i < |dt| ==> dt[i].key != k) ==> v == 0
    {
      hide TrieOk, Dictionary;
      if |k| > KSIZE_MAX {
        LongestKey(dt);
        return -1, 0;
      }
      var cur := GetInternal(k, |k|);
      assert k[..|k|] == k;
      ValueFacts(da[..], nodes, trie, dt, k);
      if cur == None {
        return -1, 0;
      }
      return 0, da[cur.value].value;
    }
  }

  lemma NothingBuilt(total: nat, dt: seq<Entry>)
    requires Roomy(total, 0) && Dictionary(dt)
    ensures TrieOk(Extended([], total), 0, EMPTY_TRIE, dt) && Covers(EMPTY_TRIE, dt, 0, 0)
    ensures LastIsLast(0, EMPTY_TRIE, dt, 0, 0)
  {
    ValueOfNone(dt, []);
  }

  lemma LongestKey(dt: seq<Entry>)
    requires Dictionary(dt)
    ensures forall i :: 0 <= i < |dt| ==> |dt[i].key| <= KSIZE_MAX
  {
  }

  /** After the level of the longest key every prefix is done. */
  lemma AllCovered(t: Trie, dt: seq<Entry>, off: nat)
    requires Covers(t, dt, off, 0) && forall i :: 0 <= i < |dt| ==> |dt[i].key| <= off
    ensures forall w :: w in t.slots <==> w == [] || exists j :: 0 <= j < |dt| && w <= dt[j].key
  {
    forall w ensures w in t.slots <==> w == [] || exists j :: 0 <= j < |dt| && w <= dt[j].key {
      if j :| 0 <= j < |dt| && w <= dt[j].key {
        assert Done(dt, off, 0, w);
      }
    }
  }

  lemma ValueFacts(da: seq<Node>, nodes: nat, t: Trie, dt: seq<Entry>, k: Key)
    requires TrieOk(da, nodes, t, dt) && Dictionary(dt)
    ensures k in t.slots ==> t.slots[k] < |da| && da[t.slots[k]].value == ValueOf(dt, k)
    ensures forall i :: 0 <= i < |dt| && dt[i].key == k ==> ValueOf(dt, k) == dt[i].value
    ensures (forall i :: 0 <= i < |dt| ==> dt[i].key != k) ==> ValueOf(dt, k) == 0
  {
    if k in t.slots {
      assert ValueOk(da, t, dt, k);
    }
    forall i | 0 <= i < |dt| && dt[i].key == k ensures ValueOf(dt, k) == dt[i].value {
      ValueOfKey(dt, i);
    }
    if forall i :: 0 <= i < |dt| ==> dt[i].key != k {
      ValueOfNone(dt, k);
    }
  }

  /** A dictionary added entry by entry and then built is ready for lookups, which answer as it does. */
  method Load(entries: seq<Entry>) returns (d: Dat)
    requires Dictionary(entries)
    ensures fresh(d) && d.Built() && d.dt == entries
  {
    hide Dictionary;
    d := new Dat();
    var i := 0;
    while i < |entries|
      invariant i <= |entries| && fresh(d) && d.dt == entries[..i]
      invariant d.da.Length == 0 && d.nodes == 0 && d.trie == EMPTY_TRIE
    {
      KeySize(entries, i);
      d.Add(entries[i].key, entries[i].value);
      assert entries[..i + 1] == entries[..i] + [entries[i]];
      i := i + 1;
    }
    assert entries[..i] == entries;
    var _ := d.Build();
  }

  lemma KeySize(dt: seq<Entry>, i: nat)
    requires Dictionary(dt) && i < |dt|
    ensures |dt[i].key| <= KSIZE_MAX
  {
  }
}
