/**
 * uthash.h: a hash table of elements that sit on two doubly linked lists at once, one in the order
 * of insertion and one for the bucket of their hash value.
 */
module UtHash {
  import opened Common
  import opened UtLists
  import opened UtChains
  import opened UtExpand

  const INITIAL_NUM_BUCKETS: nat := 32
  const INITIAL_NUM_BUCKETS_LOG2: nat := 5
  const BKT_CAPACITY_THRESH: nat := 10

  ghost function PrevOf(s: seq<Elem>): Pointers reads s`prev { map e | e in s :: e.prev }

  ghost function NextOf(s: seq<Elem>): Pointers reads s`next { map e | e in s :: e.next }

  ghost function HhPrevOf(s: seq<Elem>): Pointers reads s`hhPrev { map e | e in s :: e.hhPrev }

  ghost function HhNextOf(s: seq<Elem>): Pointers reads s`hhNext { map e | e in s :: e.hhNext }

  /** The bucket that each element belongs to. */
  ghost function OwnOf(s: seq<Elem>, buckets: nat): map<Elem, nat>
    requires buckets > 0
    reads s`hashv
  {
    map e | e in s :: Slot(e.hashv, buckets)
  }

  /** Hash values belong to keys, and no key occurs twice. */
  ghost predicate KeysOk(s: seq<Elem>, hash: Key -> nat)
    reads s`key, s`hashv
  {
    && (forall i :: 0 <= i < |s| ==> s[i].hashv == hash(s[i].key))
    && (forall i, j :: 0 <= i < j < |s| ==> s[i].key != s[j].key)
  }

  ghost predicate NoKey(s: seq<Elem>, key: Key)
    reads s`key
  {
    forall i :: 0 <= i < |s| ==> s[i].key != key
  }

  /** Every element is in the bucket of its hash value. */
  ghost predicate AllReached(s: seq<Elem>, chains: seq<seq<Elem>>)
    requires |chains| > 0
    reads s`hashv
  {
    forall i :: 0 <= i < |s| ==> s[i] in chains[Slot(s[i].hashv, |chains|)]
  }

  lemma NothingHangs(chains: seq<seq<Elem>>, bkts: seq<Bucket>)
    requires |chains| > 0 && chains == NoElements(|chains|) && bkts == NoBuckets(|chains|)
    ensures ChainsOk(chains, bkts, HhPrevOf([]), HhNextOf([])) && Owned(chains, OwnOf([], |chains|))
    ensures AllReached([], chains)
  {
  }

  lemma KeysGrow(s: seq<Elem>, add: Elem, hash: Key -> nat)
    requires KeysOk(s, hash) && NoKey(s, add.key) && add.hashv == hash(add.key)
    ensures KeysOk(s + [add], hash)
  {
  }

  ghost function MapOf(s: seq<Elem>): map<Key, Elem>
    reads s`key
  {
    if s == [] then map[] else MapOf(s[..|s| - 1])[s[|s| - 1].key := s[|s| - 1]]
  }

  /** The shift and the mask of the source round a division by a power of two up. */
  lemma IdealIsCeil(n: nat, log2: nat)
    ensures Pow2(log2 + 1) == Pow2(log2) * 2
    ensures n / Pow2(log2 + 1) + (if Slot(n, Pow2(log2) * 2) != 0 then 1 else 0) == Ceil(n, 2 * Pow2(log2))
  {
  }

  /** The map has the elements and no others. */
  lemma {:induction false} MapOfHas(s: seq<Elem>, hash: Key -> nat, key: Key)
    requires KeysOk(s, hash)
    ensures key in MapOf(s) <==> !NoKey(s, key)
    ensures forall i :: 0 <= i < |s| && s[i].key == key ==> key in MapOf(s) && MapOf(s)[key] == s[i]
  {
    if s != [] {
      var t := s[..|s| - 1];
      MapOfHas(t, hash, key);
      assert NoKey(s, key) <==> NoKey(t, key) && s[|s| - 1].key != key by {
        assert NoKey(s, key) ==> forall i :: 0 <= i < |t| ==> t[i] == s[i] && s[i].key != key;
      }
      forall i | 0 <= i < |s| && s[i].key == key ensures key in MapOf(s) && MapOf(s)[key] == s[i] {
        if i < |t| {
          assert t[i].key == key;
        }
      }
    }
  }

  /** malloc and memset of an array of buckets. */
  method ZeroBuckets(n: nat) returns (bkts: array<Bucket>)
    ensures fresh(bkts) && bkts[..] == NoBuckets(n)
  {
    bkts := new Bucket[n](_ => Bucket(null, 0, 0));
  }

  /** A hash table, as an application holds it: its head pointer and the table behind it. */
  class HashTable {
    const hash: Key -> nat
    var head: Elem?
    // UT_hash_table; without an element there is no table, and these mean nothing
    var tail: Elem?
    var buckets: array<Bucket>
    var numBuckets: nat
    var log2NumBuckets: nat
    var numItems: nat
    var idealChainMaxlen: nat
    var nonidealItems: nat
    var ineffExpands: nat
    var noexpand: bool

    /** The elements in application order, and the elements of each bucket in bucket order. */
    ghost var app: seq<Elem>
    ghost var chains: seq<seq<Elem>>

    /** The list in application order. */
    ghost predicate ListOk()
      reads `app, `head, `tail, `numItems, app`prev, app`next
    {
      && Distinct(app) && Linked(app, PrevOf(app), NextOf(app)) && head == At(app, 0)
      && (app != [] ==> tail == At(app, |app| - 1) && numItems == |app|)
    }

    /** The buckets hold lists of the elements that belong to them, and of no others. */
    ghost predicate BucketsOk()
      reads `app, `chains, `buckets, `numBuckets, `log2NumBuckets, `ineffExpands, `noexpand
      reads buckets, app`hashv, app`hhPrev, app`hhNext
    {
      && buckets.Length == |chains| == numBuckets == Pow2(log2NumBuckets)
      && (noexpand <==> ineffExpands > 1)
      && ChainsOk(chains, buckets[..], HhPrevOf(app), HhNextOf(app)) && Owned(chains, OwnOf(app, |chains|))
      && AllReached(app, chains)
    }

    /** What HASH_FSCK checks, and what it does not: where an element hangs, and that keys differ. */
    ghost predicate Valid()
      reads this, buckets, app
    {
      ListOk() && KeysOk(app, hash) && (app != [] ==> BucketsOk())
    }

    /** The table as a plain map. */
    ghost function Items(): map<Key, Elem>
      reads `app, app`key
    {
      MapOf(app)
    }

    constructor (hash: Key -> nat)
      ensures Valid() && this.hash == hash && app == []
    {
      this.hash := hash;
      head, tail, buckets := null, null, new Bucket[0];
      app, chains := [], [];
    }

    // ---------- expansion ----------

    /** The body of the inner loop of HASH_EXPAND_BUCKETS: an element goes to the front of a new bucket. */
    method MoveToBkt(newBuckets: array<Bucket>, bkt: nat, thh: Elem)
      requires bkt < newBuckets.Length && thh in app && idealChainMaxlen > 0
      requires newBuckets[bkt].head != null ==> newBuckets[bkt].head in app && newBuckets[bkt].head != thh
      modifies newBuckets, `nonidealItems, app`hhPrev, app`hhNext
      ensures newBuckets[..] == old(newBuckets[..])[bkt := Receiver(old(newBuckets[bkt]), thh, idealChainMaxlen)]
      ensures HhPrevOf(app) == Set(old(HhPrevOf(app))[thh := null], old(newBuckets[bkt].head), thh)
      ensures HhNextOf(app) == old(HhNextOf(app))[thh := old(newBuckets[bkt].head)]
      ensures nonidealItems == old(nonidealItems) + if old(newBuckets[bkt]).count + 1 > idealChainMaxlen then 1 else 0
    {
      hide Set, HhPrevOf, HhNextOf;
      var newbkt := newBuckets[bkt].(count := newBuckets[bkt].count + 1);
      if newbkt.count > idealChainMaxlen {
        nonidealItems := nonidealItems + 1;
        newbkt := newbkt.(expandMult := newbkt.count / idealChainMaxlen);
      }
      LinkInFront(thh, newbkt.head);
      newBuckets[bkt] := newbkt.(head := thh);
    }

    /** The links of an element that goes before the first one of a bucket. */
    method LinkInFront(e: Elem, first: Elem?)
      requires e in app && (first != null ==> first in app && first != e)
      modifies app`hhPrev, app`hhNext
      ensures HhPrevOf(app) == Set(old(HhPrevOf(app))[e := null], first, e)
      ensures HhNextOf(app) == old(HhNextOf(app))[e := first]
    {
      e.hhPrev := null;
      e.hhNext := first;
      if first != null {
        first.hhPrev := e;
      }
    }

    /** How far an expansion has come, with the elements as they are linked now. */
    ghost predicate Moving(was: seq<seq<Elem>>, i: nat, j: nat, now: seq<seq<Elem>>, newBuckets: array<Bucket>,
                           own: map<Elem, nat>)
      reads `app, newBuckets, app`hhPrev, app`hhNext, `idealChainMaxlen, `nonidealItems
    {
      Moved(was, i, j, now, newBuckets[..], own, HhPrevOf(app), HhNextOf(app), idealChainMaxlen, nonidealItems)
    }

    /** The body of the inner loop of HASH_EXPAND_BUCKETS. */
    method MoveOne(newBuckets: array<Bucket>, thh: Elem, ghost was: seq<seq<Elem>>, ghost i: nat, ghost j: nat,
                   ghost before: seq<seq<Elem>>, ghost own: map<Elem, nat>)
      returns (nxt: Elem?, ghost now: seq<seq<Elem>>)
      requires i < |was| == numBuckets && j < |was[i]| && thh == was[i][j]
      requires own == OwnOf(app, 2 * |was|) && Halves(was, own) && Moving(was, i, j, before, newBuckets, own)
      modifies newBuckets, `nonidealItems, app`hhPrev, app`hhNext
      ensures nxt == At(was[i], j + 1) && Moving(was, i, j + 1, now, newBuckets, own)
    {
      hide Moved, Halves;
      nxt := thh.hhNext;
      var bkt := Slot(thh.hashv, numBuckets * 2);
      ElementFacts(newBuckets, was, i, j, before, own);
      MoveStep(was, i, j, before, newBuckets[..], own, HhPrevOf(app), HhNextOf(app), idealChainMaxlen, nonidealItems,
               thh, bkt);
      now := before[bkt := [thh] + before[bkt]];
      MoveToBkt(newBuckets, bkt, thh);
    }

    /** The inner loop of HASH_EXPAND_BUCKETS. */
    method MoveChain(newBuckets: array<Bucket>, first: Elem?, ghost was: seq<seq<Elem>>, i: nat,
                     ghost before: seq<seq<Elem>>,
                     ghost own: map<Elem, nat>) returns (ghost now: seq<seq<Elem>>)
      requires i < |was| == numBuckets && first == At(was[i], 0)
      requires own == OwnOf(app, 2 * |was|) && Halves(was, own) && Moving(was, i, 0, before, newBuckets, own)
      modifies newBuckets, `nonidealItems, app`hhPrev, app`hhNext
      ensures Moving(was, i + 1, 0, now, newBuckets, own)
    {
      hide Moved, Halves;
      now := before;
      var thh := first;
      ghost var j := 0;
      while thh != null
        invariant j <= |was[i]| && thh == At(was[i], j)
        invariant Moving(was, i, j, now, newBuckets, own)
        decreases |was[i]| - j
      {
        thh, now := MoveOne(newBuckets, thh, was, i, j, now, own);
        j := j + 1;
      }
      NextBucket(was, i, now, newBuckets[..], own, HhPrevOf(app), HhNextOf(app), idealChainMaxlen, nonidealItems);
    }

    /** The outer loop of HASH_EXPAND_BUCKETS. */
    method MoveChains(newBuckets: array<Bucket>, ghost before: seq<seq<Elem>>, ghost own: map<Elem, nat>)
      returns (ghost now: seq<seq<Elem>>)
      requires 0 < numBuckets == |chains| == buckets.Length && newBuckets != buckets
      requires own == OwnOf(app, 2 * |chains|) && Halves(chains, own) && Moving(chains, 0, 0, before, newBuckets, own)
      requires forall i :: 0 <= i < |chains| ==> buckets[i].head == At(chains[i], 0)
      modifies newBuckets, `nonidealItems, app`hhPrev, app`hhNext
      ensures Moving(chains, |chains|, 0, now, newBuckets, own)
    {
      hide Moving, Halves, OwnOf;
      now := before;
      var i := 0;
      while i < numBuckets
        invariant i <= numBuckets && Moving(chains, i, 0, now, newBuckets, own)
      {
        now := MoveChain(newBuckets, buckets[i].head, chains, i, now, own);
        i := i + 1;
      }
    }

    /** The element to move next, and the bucket that gets it. */
    lemma ElementFacts(newBuckets: array<Bucket>, was: seq<seq<Elem>>, i: nat, j: nat, now: seq<seq<Elem>>,
                       own: map<Elem, nat>)
      requires i < |was| && j < |was[i]|
      requires own == OwnOf(app, 2 * |was|) && Halves(was, own) && Moving(was, i, j, now, newBuckets, own)
      ensures was[i][j] in app && idealChainMaxlen > 0 && newBuckets.Length == |now| == 2 * |was|
      ensures var h := newBuckets[Slot(was[i][j].hashv, 2 * |was|)].head; h != null ==> h in app && h != was[i][j]
    {
      var e := was[i][j];
      var b := own[e];
      NotYetMoved(was, i, j, now, own, e, b);
      assert ChainOk(now[b], newBuckets[..][b], HhPrevOf(app), HhNextOf(app));
      if now[b] != [] {
        assert now[b][0] in own;
      }
    }

    /** HASH_EXPAND_BUCKETS */
    method ExpandBuckets()
      requires BucketsOk() && numItems > 0 && !noexpand
      modifies `buckets, `chains, `numBuckets, `log2NumBuckets, `idealChainMaxlen, `nonidealItems, `ineffExpands,
               `noexpand
      modifies app`hhPrev, app`hhNext
      ensures BucketsOk() && fresh(buckets) && numBuckets == 2 * old(numBuckets)
      ensures AllSplit(old(chains), old(numBuckets), 0, chains, OwnOf(app, numBuckets))
      ensures idealChainMaxlen == Ceil(numItems, numBuckets)
      ensures nonidealItems == Excess(chains, idealChainMaxlen)
      ensures Mults(chains, buckets[..], idealChainMaxlen)
      ensures ineffExpands == if nonidealItems > numItems / 2 then old(ineffExpands) + 1 else 0
      ensures noexpand == (ineffExpands > 1)
    {
      hide BucketsOk, Moved, Halves, AllSplit, Mults, Excess, Slot, Ceil, Pow2, HhPrevOf, HhNextOf, OwnOf, AllReached,
           NoElements;
      BeforeMoving();
      ghost var was, own, now := chains, OwnOf(app, 2 * |chains|), NoElements(2 * numBuckets);
      var newBuckets := ZeroBuckets(2 * numBuckets);
      idealChainMaxlen := numItems / Pow2(log2NumBuckets + 1) + (if Slot(numItems, numBuckets * 2) != 0 then 1 else 0);
      nonidealItems := 0;
      now := MoveChains(newBuckets, now, own);
      MovedAll(was, now, newBuckets, own);
      TakeBuckets(newBuckets, now);
    }

    /** The end of HASH_EXPAND_BUCKETS: the new buckets take the place of the old. */
    method TakeBuckets(newBuckets: array<Bucket>, ghost now: seq<seq<Elem>>)
      requires numBuckets == Pow2(log2NumBuckets) && !noexpand
      requires |now| == newBuckets.Length == 2 * numBuckets
      requires ChainsOk(now, newBuckets[..], HhPrevOf(app), HhNextOf(app)) && Owned(now, OwnOf(app, |now|))
      requires AllReached(app, now)
      modifies `buckets, `chains, `numBuckets, `log2NumBuckets, `ineffExpands, `noexpand
      ensures BucketsOk() && buckets == newBuckets && chains == now && numBuckets == 2 * old(numBuckets)
      ensures ineffExpands == if nonidealItems > numItems / 2 then old(ineffExpands) + 1 else 0
      ensures noexpand == (ineffExpands > 1)
    {
      hide Slot, HhPrevOf, HhNextOf, OwnOf, AllReached, Owned, ChainsOk;
      numBuckets := numBuckets * 2;
      log2NumBuckets := log2NumBuckets + 1;
      buckets := newBuckets;
      ineffExpands := if nonidealItems > numItems / 2 then ineffExpands + 1 else 0;
      if ineffExpands > 1 {
        noexpand := true;
      }
      chains := now;
    }

    /** Where the loops of HASH_EXPAND_BUCKETS start. */
    lemma BeforeMoving()
      requires BucketsOk() && numItems > 0
      ensures buckets.Length == |chains| == numBuckets == Pow2(log2NumBuckets) && AllReached(app, chains)
      ensures Halves(chains, OwnOf(app, 2 * numBuckets))
      ensures forall i :: 0 <= i < numBuckets ==> buckets[i].head == At(chains[i], 0)
      ensures var ideal := numItems / Pow2(log2NumBuckets + 1) + (if Slot(numItems, numBuckets * 2) != 0 then 1 else 0);
              ideal == Ceil(numItems, 2 * numBuckets)
              && Moved(chains, 0, 0, NoElements(2 * numBuckets), NoBuckets(2 * numBuckets), OwnOf(app, 2 * numBuckets),
                       HhPrevOf(app), HhNextOf(app), ideal, 0)
    {
      BucketsHalve();
      IdealIsCeil(numItems, log2NumBuckets);
      CeilIsLeast(numItems, 2 * numBuckets, 0);
      hide Moved, Ceil, Slot, Pow2, Owned, Halves, AllReached, HhPrevOf, HhNextOf, OwnOf;
      NothingMoved(chains, NoElements(2 * numBuckets), NoBuckets(2 * numBuckets), OwnOf(app, 2 * numBuckets),
                   buckets[..],
                   HhPrevOf(app), HhNextOf(app), Ceil(numItems, 2 * numBuckets));
      forall i | 0 <= i < numBuckets ensures buckets[i].head == At(chains[i], 0) {
        assert ChainOk(chains[i], buckets[..][i], HhPrevOf(app), HhNextOf(app));
      }
    }

    /** After the loops every element is in a new bucket. */
    lemma MovedAll(was: seq<seq<Elem>>, now: seq<seq<Elem>>, newBuckets: array<Bucket>, own: map<Elem, nat>)
      requires |was| > 0 && own == OwnOf(app, 2 * |was|) && Halves(was, own)
               && Moving(was, |was|, 0, now, newBuckets, own)
      requires AllReached(app, was)
      ensures |now| == newBuckets.Length == 2 * |was|
      ensures ChainsOk(now, newBuckets[..], HhPrevOf(app), HhNextOf(app)) && Owned(now, own)
      ensures AllSplit(was, |was|, 0, now, own) && Mults(now, newBuckets[..], idealChainMaxlen)
      ensures nonidealItems == Excess(now, idealChainMaxlen)
      ensures AllReached(app, now)
    {
      forall i | 0 <= i < |app| ensures app[i] in now[Slot(app[i].hashv, |now|)] {
        var e := app[i];
        var b := own[e];
        SlotOrigin(e.hashv, |was|);
        SplitHasAll(was[Origin(b, |was|)], own, b, e);
        assert now[b] == Split(Part(was, |was|, 0, Origin(b, |was|)), own, b);
      }
    }

    lemma BucketsHalve()
      requires BucketsOk()
      ensures Halves(chains, OwnOf(app, 2 * |chains|))
    {
      var own := OwnOf(app, |chains|);
      forall c, k | 0 <= c < |chains| && 0 <= k < |chains[c]|
        ensures var e := chains[c][k]; e in app && Origin(Slot(e.hashv, 2 * |chains|), |chains|) == c
      {
        assert chains[c][k] in own && own[chains[c][k]] == c;
        SlotOrigin(chains[c][k].hashv, |chains|);
      }
      forall c | 0 <= c < |chains| ensures Distinct(chains[c]) {
        assert ChainOk(chains[c], buckets[..][c], HhPrevOf(app), HhNextOf(app));
      }
    }

    // ---------- add ----------

    /** The bucket invariant while an element is on its way in. */
    ghost predicate Adding(e: Elem)
      reads `app, `chains, `buckets, `numBuckets, `log2NumBuckets, `ineffExpands, `noexpand
      reads buckets, app`hashv, app`hhPrev, app`hhNext, e`hashv
    {
      && buckets.Length == |chains| == numBuckets == Pow2(log2NumBuckets)
      && (noexpand <==> ineffExpands > 1)
      && ChainsOk(chains, buckets[..], HhPrevOf(app), HhNextOf(app)) && Owned(chains, OwnOf(app, |chains|))
      && e in app && e !in chains[Slot(e.hashv, |chains|)]
      && forall i :: 0 <= i < |app| && app[i] != e ==> app[i] in chains[Slot(app[i].hashv, |chains|)]
    }

    lemma AddingFacts(e: Elem)
      requires Adding(e)
      ensures e in app && (noexpand <==> ineffExpands > 1)
      ensures var b := Slot(e.hashv, numBuckets);
              && b < buckets.Length == |chains| == numBuckets == Pow2(log2NumBuckets)
              && (buckets[b].head != null ==> buckets[b].head in app && buckets[b].head != e)
              && ChainsOk(chains[b := [e] + chains[b]],
                          buckets[..][b := Bucket(e, buckets[b].count + 1, buckets[b].expandMult)],
                          Set(HhPrevOf(app)[e := null], buckets[b].head, e), HhNextOf(app)[e := buckets[b].head])
              && Owned(chains[b := [e] + chains[b]], OwnOf(app, |chains|))
              && AllReached(app, chains[b := [e] + chains[b]])
    {
      var b := Slot(e.hashv, numBuckets);
      var own := OwnOf(app, |chains|);
      PushKeeps(chains, buckets[..], own, b, HhPrevOf(app), HhNextOf(app), e);
      assert ChainOk(chains[b], buckets[..][b], HhPrevOf(app), HhNextOf(app));
      if chains[b] != [] {
        assert chains[b][0] in own;
      }
    }

    /** HASH_ADD_TO_BKT */
    method AddToBkt(b: nat, e: Elem)
      requires Adding(e) && b == Slot(e.hashv, numBuckets) && numItems > 0
      modifies buckets, `buckets, `chains, `numBuckets, `log2NumBuckets
      modifies `idealChainMaxlen, `nonidealItems, `ineffExpands, `noexpand, app`hhPrev, app`hhNext
      ensures BucketsOk() && (buckets == old(buckets) || fresh(buckets))
      ensures b < old(buckets.Length)
      ensures var full := old(buckets[b].count + 1 >= 10 * (buckets[b].expandMult + 1) && !noexpand);
              && numBuckets == (if full then 2 * old(numBuckets) else old(numBuckets))
              && (!full ==> chains == old(chains[b := [e] + chains[b]]))
    {
      hide ChainsOk, Owned, Slot, Pow2, HhPrevOf, HhNextOf, OwnOf, AllReached, Set, Adding;
      AddingFacts(e);
      ghost var next := chains[b := [e] + chains[b]];
      buckets[b] := buckets[b].(count := buckets[b].count + 1);
      LinkInFront(e, buckets[b].head);
      buckets[b] := buckets[b].(head := e);
      chains := next;
      assert buckets[..] == old(buckets[..][b := Bucket(e, buckets[b].count + 1, buckets[b].expandMult)]);
      assert OwnOf(app, |chains|) == old(OwnOf(app, |chains|)) && AllReached(app, chains);
      assert BucketsOk();
      if buckets[b].count >= (buckets[b].expandMult + 1) * BKT_CAPACITY_THRESH && !noexpand {
        ExpandBuckets();
      }
    }

    /** HASH_MAKE_TABLE */
    method MakeTable()
      modifies `buckets, `chains, `numBuckets, `log2NumBuckets, `numItems
      modifies `idealChainMaxlen, `nonidealItems, `ineffExpands, `noexpand
      ensures fresh(buckets) && buckets[..] == NoBuckets(32) && numItems == 0
      ensures chains == NoElements(numBuckets) && numBuckets == Pow2(log2NumBuckets) == 32
      ensures ineffExpands == 0 && !noexpand
    {
      numItems, idealChainMaxlen, nonidealItems, ineffExpands, noexpand := 0, 0, 0, 0, false;
      numBuckets := INITIAL_NUM_BUCKETS;
      log2NumBuckets := INITIAL_NUM_BUCKETS_LOG2;
      buckets := ZeroBuckets(INITIAL_NUM_BUCKETS);
      chains := NoElements(INITIAL_NUM_BUCKETS);
      assert Pow2(5) == 32;
    }

    /** The first element: it comes with a table. */
    method AddFirst(add: Elem)
      requires ListOk() && head == null && add.next == null
      modifies `head, `tail, `app, add`prev, `buckets, `chains, `numBuckets, `log2NumBuckets, `numItems
      modifies `idealChainMaxlen, `nonidealItems, `ineffExpands, `noexpand
      ensures ListOk() && app == old(app) + [add] == [add] && numItems == 1
      ensures fresh(buckets) && buckets[..] == NoBuckets(numBuckets) && chains == NoElements(numBuckets)
      ensures numBuckets == Pow2(log2NumBuckets) == 32 && ineffExpands == 0 && !noexpand
    {
      head := add;
      add.prev := null;
      MakeTable();
      tail := add;
      numItems := numItems + 1;
      app := app + [add];
    }

    /** A later element goes to the end of the list. */
    method AddLast(add: Elem)
      requires ListOk() && head != null && add !in app && add.next == null
      modifies `tail, `app, `numItems, add`prev, app`next
      ensures ListOk() && app == old(app) + [add] && numItems > 0
    {
      hide Linked, Distinct, Set, PrevOf, NextOf;
      BackLinked(app, add, PrevOf(app), NextOf(app));
      assert tail == app[|app| - 1] && |app| > 0;
      LinkBehind(app, tail, add);
      tail := add;
      numItems := numItems + 1;
      app := app + [add];
    }

    /** The buckets before an element came, seen when the element is in the list. */
    lemma AddingNow(add: Elem, was: seq<Elem>)
      requires app == was + [add] && add !in was
      requires buckets.Length == |chains| == numBuckets == Pow2(log2NumBuckets) && (noexpand <==> ineffExpands > 1)
      requires ChainsOk(chains, buckets[..], HhPrevOf(was), HhNextOf(was)) && Owned(chains, OwnOf(was, |chains|))
      requires AllReached(was, chains)
      ensures Adding(add)
    {
      hide Slot, Pow2, ChainsOk;
      forall b, j | 0 <= b < |chains| && 0 <= j < |chains[b]| ensures chains[b][j] in app {
        assert chains[b][j] in OwnOf(was, |chains|);
      }
      hide Owned;
      CarryKeepsOwned(was);
      NotOwned(chains, OwnOf(was, |chains|), add, Slot(add.hashv, |chains|));
    }

    /** The buckets do not depend on elements that are in none. */
    lemma CarryKeepsOwned(was: seq<Elem>)
      requires |chains| > 0 && Owned(chains, OwnOf(was, |chains|))
      requires ChainsOk(chains, buckets[..], HhPrevOf(was), HhNextOf(was))
      requires forall b, j :: 0 <= b < |chains| && 0 <= j < |chains[b]| ==> chains[b][j] in app
      ensures ChainsOk(chains, buckets[..], HhPrevOf(app), HhNextOf(app)) && Owned(chains, OwnOf(app, |chains|))
    {
      forall b, j | 0 <= b < |chains| && 0 <= j < |chains[b]|
        ensures Carried(chains[b][j], OwnOf(was, |chains|), HhPrevOf(was), HhNextOf(was),
                        OwnOf(app, |chains|), HhPrevOf(app), HhNextOf(app))
      {
        assert chains[b][j] in OwnOf(was, |chains|);
      }
      hide ChainsOk, Owned;
      CarryKeeps(chains, buckets[..], OwnOf(was, |chains|), HhPrevOf(was), HhNextOf(was),
                 OwnOf(app, |chains|), HhPrevOf(app), HhNextOf(app));
    }

    /** HASH_ADD_KEYPTR up to the bucket. */
    method AddToList(key: Key, add: Elem)
      requires Valid() && add !in app && key !in Items()
      modifies `head, `tail, `app, `buckets, `chains, `numBuckets, `log2NumBuckets, `numItems
      modifies `idealChainMaxlen, `nonidealItems, `ineffExpands, `noexpand, add, app`next
      ensures ListOk() && KeysOk(app, hash) && Adding(add) && app == old(app) + [add] && add.key == key && numItems > 0
      ensures numBuckets > 0 && (old(app) == [] ==> buckets[..] == NoBuckets(32) && numBuckets == 32 && !noexpand)
      ensures buckets == old(buckets) || fresh(buckets)
    {
      hide Valid, ListOk, KeysOk, BucketsOk, Adding, ChainsOk, Owned, Slot, Pow2, AllReached, NoElements, NoBuckets,
           MapOf;
      hide OwnOf, HhPrevOf, HhNextOf, PrevOf, NextOf, At, NoKey;
      ghost var was := app;
      Open();
      MapOfHas(app, hash, key);
      add.next := null;
      add.key := key;
      if head == null {
        AddFirst(add);
        NothingHangs(chains, buckets[..]);
      } else {
        AddLast(add);
      }
      add.hashv := hash(key);
      KeysGrow(was, add, hash);
      AddingNow(add, was);
    }

    /** HASH_ADD_KEYPTR */
    method Add(key: Key, add: Elem)
      requires Valid() && add !in app && key !in Items()
      modifies this, buckets, add, app`next, app`hhPrev, app`hhNext
      ensures Valid() && app == old(app) + [add] && add.key == key
      ensures Items() == old(Items())[key := add]
      ensures old(app) == [] ==> numBuckets == 32
      ensures buckets == old(buckets) || fresh(buckets)
    {
      hide Valid, ListOk, KeysOk, BucketsOk, Adding, Pow2, MapOf, Slot;
      ghost var was := app;
      AddToList(key, add);
      var bkt := Slot(add.hashv, numBuckets);
      assert was == [] ==> forall b :: 0 <= b < buckets.Length ==> buckets[b] == buckets[..][b];
      AddToBkt(bkt, add);
      MapOfGrows(was, add);
      Close();
    }

    lemma Close()
      requires ListOk() && KeysOk(app, hash) && BucketsOk()
      ensures Valid()
    {
    }

    // ---------- find ----------

    /** What a walk along a bucket meets. */
    lemma ChainFacts(b: nat)
      requires BucketsOk() && b < |chains|
      ensures buckets.Length == |chains| && buckets[b].head == At(chains[b], 0)
      ensures At(chains[b], -1) == null
      ensures forall j :: 0 <= j < |chains[b]| ==>
                chains[b][j] in app && chains[b][j].hhNext == At(chains[b], j + 1)
                  && chains[b][j].hhPrev == At(chains[b], j - 1)
    {
      hide Pow2, AllReached;
      assert ChainOk(chains[b], buckets[..][b], HhPrevOf(app), HhNextOf(app));
      forall j | 0 <= j < |chains[b]|
        ensures chains[b][j] in app && chains[b][j].hhNext == At(chains[b], j + 1)
                && chains[b][j].hhPrev == At(chains[b], j - 1)
      {
        assert chains[b][j] in OwnOf(app, |chains|);
        assert chains[b][j] in HhNextOf(app);
      }
    }

    /** HASH_FIND: agrees with the plain map. */
    method Find(key: Key) returns (out: Elem?)
      requires Valid()
      ensures out != null <==> key in Items()
      ensures out != null ==> out in app && out.key == key && Items()[key] == out
    {
      hide Valid, ListOk, BucketsOk, MapOf, Slot, At, ChainsOk, Owned, AllReached, Pow2;
      Open();
      MapOfHas(app, hash, key);
      out := null;
      if head != null {
        var hashv := hash(key);
        var bkt := Slot(hashv, numBuckets);
        ghost var chain := chains[bkt];
        ChainFacts(bkt);
        KeyIsReached(key);
        out := buckets[bkt].head;
        ghost var j := 0;
        while out != null
          invariant j <= |chain| && out == At(chain, j)
          invariant forall k :: 0 <= k < j ==> chain[k].key != key
          decreases |chain| - j
        {
          AtIs(chain, j);
          if out.key == key {
            break;
          }
          out := out.hhNext;
          j := j + 1;
        }
        AtIs(chain, j);
      }
    }

    /** An element with a key can only be in the bucket that the key selects. */
    lemma KeyIsReached(key: Key)
      requires KeysOk(app, hash) && |chains| > 0 && AllReached(app, chains)
      ensures forall i :: 0 <= i < |app| && app[i].key == key ==> app[i] in chains[Slot(hash(key), |chains|)]
    {
      hide Slot;
    }

    // ---------- delete ----------

    /** HASH_DELETE, the list in application order. */
    method UnlinkFromList(e: Elem, ghost k: nat, ghost s: seq<Elem>)
      requires ListOk() && k < |app| && app[k] == e && |app| > 1 && s == Without(app, k)
      modifies `head, `tail, app`prev, app`next
      ensures Distinct(s) && Linked(s, PrevOf(s), NextOf(s)) && head == At(s, 0) && tail == At(s, |s| - 1)
    {
      hide ListOk, Linked, Distinct, Set, PrevOf, NextOf, At, Without;
      ListWithout(k);
      if e == tail {
        tail := e.prev;
      }
      if e.prev == null {
        head := e.next;
      }
      Bridge(app, e);
      Restrict(app, s);
    }

    lemma ListWithout(k: nat)
      requires ListOk() && k < |app| && |app| > 1
      ensures var s, e := Without(app, k), app[k];
              && Distinct(s) && (forall x :: x in s ==> x in app && x != e)
              && Linked(s, Set(PrevOf(app), e.next, e.prev), Set(NextOf(app), e.prev, e.next))
              && (e.prev != null ==> e.prev in app && e.prev != e) && (e.next != null ==> e.next in app && e.next != e)
              && At(s, 0) == (if e.prev == null then e.next else head)
              && At(s, |s| - 1) == (if e == tail then e.prev else tail)
    {
      WithoutLinked(app, k, PrevOf(app), NextOf(app));
      WithoutAt(app, k, 0);
      WithoutAt(app, k, |app| - 2);
      assert app[k] in PrevOf(app);
      forall x | x in Without(app, k) ensures x in app && x != app[k] {
        WithoutHas(app, k, x);
      }
    }

    /** HASH_DEL_IN_BKT */
    method DelInBkt(b: nat, e: Elem, ghost k: nat)
      requires BucketsOk() && b < |chains| && k < |chains[b]| && chains[b][k] == e
      modifies buckets, `chains, app`hhPrev, app`hhNext
      ensures chains == old(chains)[b := Without(old(chains)[b], k)] && buckets.Length == |chains|
      ensures ChainsOk(chains, buckets[..], HhPrevOf(app), HhNextOf(app)) && Owned(chains, OwnOf(app, |chains|))
    {
      hide BucketsOk, ChainsOk, Owned, OwnOf, HhPrevOf, HhNextOf, Set, At, Without;
      BucketWithout(b, k);
      buckets[b] := buckets[b].(count := buckets[b].count - 1);
      if buckets[b].head == e {
        buckets[b] := buckets[b].(head := e.hhNext);
      }
      HhBridge(app, e);
      chains := chains[b := Without(chains[b], k)];
      assert buckets[..] == old(buckets[..][b := Bucket(if buckets[b].head == e then e.hhNext else buckets[b].head,
                                                        buckets[b].count - 1, buckets[b].expandMult)]);
    }

    lemma BucketWithout(b: nat, k: nat)
      requires BucketsOk() && b < |chains| && k < |chains[b]|
      ensures var e, s := chains[b][k], Without(chains[b], k);
              && buckets.Length == |chains| && buckets[b].count > 0 && e in app
              && (e.hhPrev != null ==> e.hhPrev in app && e.hhPrev != e)
              && (e.hhNext != null ==> e.hhNext in app && e.hhNext != e)
              && ChainsOk(chains[b := s],
                          buckets[..][b := Bucket(if buckets[b].head == e then e.hhNext else buckets[b].head,
                                                  buckets[b].count - 1, buckets[b].expandMult)],
                          Set(HhPrevOf(app), e.hhNext, e.hhPrev), Set(HhNextOf(app), e.hhPrev, e.hhNext))
              && Owned(chains[b := s], OwnOf(app, |chains|))
    {
      ChainFacts(b);
      hide Pow2, AllReached, Linked, Without, Set;
      DropKeeps(chains, buckets[..], OwnOf(app, |chains|), b, HhPrevOf(app), HhNextOf(app), k);
      assert ChainOk(chains[b], buckets[..][b], HhPrevOf(app), HhNextOf(app));
    }

    /** The second branch of HASH_DELETE: other elements are left. */
    method TakeOut(e: Elem, ghost k: nat, ghost s: seq<Elem>)
      requires Valid() && k < |app| && app[k] == e && s == Without(app, k) && s != [] && KeysOk(s, hash)
      modifies `head, `tail, `numItems, `app, `chains, buckets, app`prev, app`next, app`hhPrev, app`hhNext
      ensures Valid() && app == s
    {
      hide Valid, ListOk, KeysOk, BucketsOk, ChainsOk, Owned, AllReached, Pow2, Slot, Linked, Distinct;
      hide OwnOf, HhPrevOf, HhNextOf, PrevOf, NextOf, At, Without;
      Open();
      OnlyElement(k);
      ghost var was := app;
      assert numItems - 1 == |s| > 0;
      var bkt := Slot(e.hashv, numBuckets);
      WhereReached(k);
      ghost var j :| 0 <= j < |chains[bkt]| && chains[bkt][j] == e;
      ChainsWithout(bkt, j, k);
      UnlinkFromList(e, k, s);
      DelInBkt(bkt, e, j);
      Rest(was, s);
    }

    /** The count after a deletion. */
    method Rest(ghost was: seq<Elem>, ghost s: seq<Elem>)
      requires s != [] && Distinct(s) && Linked(s, PrevOf(s), NextOf(s)) && head == At(s, 0)
      requires tail == At(s, |s| - 1) && numItems - 1 == |s| && KeysOk(s, hash)
      requires buckets.Length == |chains| == numBuckets == Pow2(log2NumBuckets) && (noexpand <==> ineffExpands > 1)
      requires ChainsOk(chains, buckets[..], HhPrevOf(was), HhNextOf(was)) && Owned(chains, OwnOf(was, |chains|))
      requires AllReached(s, chains) && forall c, i :: 0 <= c < |chains| && 0 <= i < |chains[c]| ==> chains[c][i] in s
      modifies `numItems, `app
      ensures Valid() && app == s
    {
      hide KeysOk, ChainsOk, Owned, AllReached, Linked, Distinct, Pow2, PrevOf, NextOf, At, HhPrevOf, HhNextOf, OwnOf;
      numItems := numItems - 1;
      app := s;
      Settled(was);
    }

    /** HASH_DELETE */
    method Delete(e: Elem)
      requires Valid() && e in app
      modifies this, buckets, app`prev, app`next, app`hhPrev, app`hhNext
      ensures Valid() && buckets == old(buckets)
      ensures exists k :: 0 <= k < |old(app)| && old(app)[k] == e && app == Without(old(app), k)
      ensures Items() == old(Items()) - {e.key}
    {
      hide Valid, ListOk, KeysOk, BucketsOk, MapOf, PrevOf, NextOf, At, NoKey;
      Open();
      ghost var k :| 0 <= k < |app| && app[k] == e;
      MapOfWithout(app, hash, k);
      OnlyElement(k);
      ghost var s, m := Without(app, k), Items() - {e.key};
      assert MapOf(s) == m;
      if e.prev == null && e.next == null {
        head := null;
        app := [];
        NoneLeft();
      } else {
        hide Without;
        TakeOut(e, k, s);
        assert MapOf(app) == m;
      }
    }

    lemma OnlyElement(k: nat)
      requires ListOk() && k < |app|
      ensures numItems == |app| && (app[k].prev == null && app[k].next == null <==> |app| == 1)
      ensures |Without(app, k)| == |app| - 1 && (|app| == 1 ==> Without(app, k) == [])
    {
      assert app[k] in PrevOf(app) && PrevOf(app)[app[k]] == At(app, k - 1);
    }

    lemma NoneLeft()
      requires app == [] && head == null
      ensures Valid()
    {
    }

    lemma WhereReached(k: nat)
      requires BucketsOk() && k < |app|
      ensures app[k] in chains[Slot(app[k].hashv, numBuckets)]
    {
      hide Pow2, ChainsOk, Owned, Slot;
    }

    /** The element is in no other bucket, and every other element stays where it is. */
    lemma ChainsWithout(b: nat, j: nat, k: nat)
      requires Distinct(app) && BucketsOk() && b < |chains| && j < |chains[b]| && k < |app| && chains[b][j] == app[k]
      ensures var cs, s := chains[b := Without(chains[b], j)], Without(app, k);
              AllReached(s, cs) && forall c, i :: 0 <= c < |cs| && 0 <= i < |cs[c]| ==> cs[c][i] in s
    {
      hide ChainsOk, Without, Slot, Pow2, AllReached, Owned;
      OthersStay(b, j, k);
      OthersReached(b, j, k);
    }

    lemma OthersStay(b: nat, j: nat, k: nat)
      requires Distinct(app) && BucketsOk() && b < |chains| && j < |chains[b]| && k < |app| && chains[b][j] == app[k]
      ensures var cs, s := chains[b := Without(chains[b], j)], Without(app, k);
              forall c, i :: 0 <= c < |cs| && 0 <= i < |cs[c]| ==> cs[c][i] in s
    {
      var cs, s := chains[b := Without(chains[b], j)], Without(app, k);
      var own := OwnOf(app, |chains|);
      assert own[chains[b][j]] == b;
      assert ChainOk(chains[b], buckets[..][b], HhPrevOf(app), HhNextOf(app));
      hide ChainsOk, ChainOk, Without, Slot, Pow2, AllReached;
      forall c, i | 0 <= c < |cs| && 0 <= i < |cs[c]| ensures cs[c][i] in s {
        var x := cs[c][i];
        if c == b {
          WithoutHas(chains[b], j, x);
        }
        assert x in chains[c];
        var i' :| 0 <= i' < |chains[c]| && chains[c][i'] == x;
        assert own[chains[c][i']] == c;
        WithoutHas(app, k, x);
      }
    }

    lemma OthersReached(b: nat, j: nat, k: nat)
      requires Distinct(app) && BucketsOk() && b < |chains| && j < |chains[b]| && k < |app| && chains[b][j] == app[k]
      ensures AllReached(Without(app, k), chains[b := Without(chains[b], j)])
    {
      var cs, s := chains[b := Without(chains[b], j)], Without(app, k);
      assert ChainOk(chains[b], buckets[..][b], HhPrevOf(app), HhNextOf(app));
      hide ChainsOk, ChainOk, Without, Slot, Pow2, Owned;
      forall i | 0 <= i < |s| ensures s[i] in cs[Slot(s[i].hashv, |cs|)] {
        WithoutHas(app, k, s[i]);
        var i' :| 0 <= i' < |app| && app[i'] == s[i];
        assert app[i'] in chains[Slot(app[i'].hashv, |chains|)];
        WithoutHas(chains[b], j, s[i]);
      }
    }

    lemma Settled(was: seq<Elem>)
      requires app != [] && Distinct(app) && Linked(app, PrevOf(app), NextOf(app)) && head == At(app, 0)
      requires tail == At(app, |app| - 1) && numItems == |app| && KeysOk(app, hash)
      requires buckets.Length == |chains| == numBuckets == Pow2(log2NumBuckets) && (noexpand <==> ineffExpands > 1)
      requires ChainsOk(chains, buckets[..], HhPrevOf(was), HhNextOf(was)) && Owned(chains, OwnOf(was, |chains|))
      requires AllReached(app, chains)
      requires forall c, i :: 0 <= c < |chains| && 0 <= i < |chains[c]| ==> chains[c][i] in app
      ensures Valid()
    {
      hide KeysOk, ChainsOk, Owned, AllReached, Linked, Distinct, Pow2;
      CarryKeepsOwned(was);
    }

    /** HASH_REPLACE */
    method Replace(key: Key, add: Elem) returns (replaced: Elem?)
      requires Valid() && add !in app
      modifies this, buckets, add, app`prev, app`next, app`hhPrev, app`hhNext
      ensures Valid() && add.key == key && Items() == old(Items())[key := add]
      ensures replaced != null <==> key in old(Items())
      ensures replaced != null ==> replaced == old(Items())[key] && replaced !in app
      ensures (forall i :: 0 <= i < |app| ==> app[i] in old(app) || app[i] == add) && add in app
      ensures buckets == old(buckets) || fresh(buckets)
    {
      hide Valid, MapOf, Without;
      replaced := Find(key);
      ghost var was := app;
      if replaced != null {
        DistinctNow();
        Delete(replaced);
        ghost var k :| 0 <= k < |was| && was[k] == replaced && app == Without(was, k);
        WithoutElements(was, k);
      }
      assert forall i :: 0 <= i < |app| ==> app[i] in was;
      Add(key, add);
    }

    lemma DistinctNow()
      requires Valid()
      ensures Distinct(app)
    {
    }

    // ---------- check ----------

    /** A walk along the next pointers of the list, or of a bucket, comes to an end: `app` and `chains` are what
        it meets. */
    ghost predicate Walkable()
      reads this, buckets, app, set b, j | 0 <= b < |chains| && 0 <= j < |chains[b]| :: chains[b][j]
    {
      && head == At(app, 0) && (forall i :: 0 <= i < |app| ==> app[i].next == At(app, i + 1))
      && (app != [] ==> buckets.Length == numBuckets == |chains| && forall b :: 0 <= b < |chains| ==> ChainWalkable(b))
    }

    ghost predicate ChainWalkable(b: nat)
      requires b < |chains| == buckets.Length
      reads `chains, `buckets, buckets, chains[b]
    {
      && buckets[b].head == At(chains[b], 0)
      && forall j :: 0 <= j < |chains[b]| ==> chains[b][j].hhNext == At(chains[b], j + 1)
    }

    /** The other pointers of a bucket, and its count. */
    ghost predicate ChainSound(b: nat)
      requires b < |chains| == buckets.Length
      reads `chains, `buckets, buckets, chains[b]
    {
      && buckets[b].count == |chains[b]|
      && forall j :: 0 <= j < |chains[b]| ==> chains[b][j].hhPrev == At(chains[b], j - 1)
    }

    /** All that can be wrong with a table but for what the walks depend on, and where elements belong. */
    ghost predicate Sound()
      requires app != [] ==> buckets.Length == |chains|
      reads this, buckets, app, set b, j | 0 <= b < |chains| && 0 <= j < |chains[b]| :: chains[b][j]
    {
      app != [] ==>
        && (forall b :: 0 <= b < |chains| ==> ChainSound(b)) && Total(chains) == numItems
        && (forall i :: 0 <= i < |app| ==> app[i].prev == At(app, i - 1)) && numItems == |app|
    }

    /** HASH_FSCK: it complains if and only if something is wrong, and its walks come to an end. */
    method Fsck() returns (ok: bool)
      requires Walkable()
      ensures ok <==> Sound()
    {
      hide At, Total, ChainWalkable, ChainSound;
      AtIs(app, 0);
      if head == null {
        return true;
      }
      var count := 0;
      var i := 0;
      TotalNone(chains);
      while i < numBuckets
        invariant i <= numBuckets && count == Total(chains[..i])
        invariant forall b :: 0 <= b < i ==> ChainSound(b)
      {
        var good, bktCount := CheckChain(i);
        if !good {
          return false;
        }
        count := count + bktCount;
        TotalStep(chains, i);
        i := i + 1;
      }
      assert chains[..numBuckets] == chains;
      if count != numItems {
        return false;
      }
      ok := CheckList();
    }

    /** One round of the first loop of HASH_FSCK. */
    method CheckChain(b: nat) returns (good: bool, bktCount: nat)
      requires b < |chains| == buckets.Length && ChainWalkable(b)
      ensures good <==> ChainSound(b)
      ensures good ==> bktCount == |chains[b]|
    {
      hide At;
      BeforeFirst(chains[b]);
      var thh, prev := buckets[b].head, null;
      bktCount := 0;
      while thh != null
        invariant bktCount <= |chains[b]| && thh == At(chains[b], bktCount) && prev == At(chains[b], bktCount - 1)
        invariant forall j :: 0 <= j < bktCount ==> chains[b][j].hhPrev == At(chains[b], j - 1)
        decreases |chains[b]| - bktCount
      {
        AtIs(chains[b], bktCount);
        if prev != thh.hhPrev {
          return false, bktCount;
        }
        bktCount := bktCount + 1;
        prev := thh;
        thh := thh.hhNext;
      }
      AtIs(chains[b], bktCount);
      good := buckets[b].count == bktCount;
    }

    /** The last loop of HASH_FSCK. */
    method CheckList() returns (good: bool)
      requires head == At(app, 0) && forall i :: 0 <= i < |app| ==> app[i].next == At(app, i + 1)
      ensures good <==> (forall i :: 0 <= i < |app| ==> app[i].prev == At(app, i - 1)) && numItems == |app|
    {
      hide At;
      BeforeFirst(app);
      var count := 0;
      var prev := null;
      var thh := head;
      while thh != null
        invariant count <= |app| && thh == At(app, count) && prev == At(app, count - 1)
        invariant forall j :: 0 <= j < count ==> app[j].prev == At(app, j - 1)
        decreases |app| - count
      {
        AtIs(app, count);
        count := count + 1;
        if prev != thh.prev {
          return false;
        }
        prev := thh;
        thh := thh.next;
      }
      AtIs(app, count);
      return count == numItems;
    }

    /** Nothing is wrong with a valid table. */
    lemma ValidIsSound()
      requires Valid()
      ensures Walkable() && Sound()
    {
      hide Valid, ListOk, KeysOk, BucketsOk, ChainsOk, Owned, AllReached, Pow2, At, Total, ChainWalkable, ChainSound;
      Open();
      if app == [] {
        AtIs(app, 0);
      } else {
        CountsAddUp();
        ListFacts();
        forall b | 0 <= b < |chains| ensures ChainWalkable(b) && ChainSound(b) {
          ChainIsSound(b);
        }
      }
    }

    lemma ChainIsSound(b: nat)
      requires BucketsOk() && b < |chains|
      ensures buckets.Length == |chains| && ChainWalkable(b) && ChainSound(b)
    {
      ChainFacts(b);
      CountIsLength(b);
      hide BucketsOk, At;
    }

    /** The counts of the buckets add up to the number of items. */
    lemma CountsAddUp()
      requires Valid() && app != []
      ensures Total(chains) == numItems
    {
      hide Pow2, Linked, KeysOk;
      var own := OwnOf(app, |chains|);
      forall b | 0 <= b < |chains| ensures Distinct(chains[b]) {
        assert ChainOk(chains[b], buckets[..][b], HhPrevOf(app), HhNextOf(app));
      }
      TotalIsSize(chains, own);
      assert Below(own, |chains|) == SetOf(app);
      DistinctSize(app);
    }

    lemma CountIsLength(b: nat)
      requires BucketsOk() && b < |chains|
      ensures buckets.Length == |chains| && buckets[b].count == |chains[b]|
    {
      assert ChainOk(chains[b], buckets[..][b], HhPrevOf(app), HhNextOf(app));
    }

    lemma ListFacts()
      requires ListOk() && app != []
      ensures head == At(app, 0) && numItems == |app|
      ensures At(app, -1) == null
      ensures forall i :: 0 <= i < |app| ==> app[i].prev == At(app, i - 1) && app[i].next == At(app, i + 1)
    {
      forall i | 0 <= i < |app| ensures app[i].prev == At(app, i - 1) && app[i].next == At(app, i + 1) {
        assert app[i] in PrevOf(app);
      }
    }

    lemma Open()
      requires Valid()
      ensures ListOk() && Distinct(app) && KeysOk(app, hash) && (head == null <==> app == [])
      ensures app != [] ==>
                && numItems == |app| && BucketsOk() && buckets.Length == |chains| == numBuckets == Pow2(log2NumBuckets)
                && (noexpand <==> ineffExpands > 1)
                && ChainsOk(chains, buckets[..], HhPrevOf(app), HhNextOf(app)) && Owned(chains, OwnOf(app, |chains|))
                && AllReached(app, chains)
    {
      hide KeysOk, AllReached, Owned, ChainsOk, Linked, Distinct, Pow2;
    }
  }

  /** The neighbours of an element on the list point past it. */
  method Bridge(ghost s: seq<Elem>, e: Elem)
    requires e.prev != null ==> e.prev in s && e.prev != e
    requires e.next != null ==> e.next in s && e.next != e
    modifies s`next, s`prev
    ensures PrevOf(s) == old(Set(PrevOf(s), e.next, e.prev))
    ensures NextOf(s) == old(Set(NextOf(s), e.prev, e.next))
  {
    if e.prev != null {
      e.prev.next := e.next;
    }
    if e.next != null {
      e.next.prev := e.prev;
    }
  }

  /** The neighbours of an element in a bucket point past it. */
  method HhBridge(ghost s: seq<Elem>, e: Elem)
    requires e.hhPrev != null ==> e.hhPrev in s && e.hhPrev != e
    requires e.hhNext != null ==> e.hhNext in s && e.hhNext != e
    modifies s`hhNext, s`hhPrev
    ensures HhPrevOf(s) == old(Set(HhPrevOf(s), e.hhNext, e.hhPrev))
    ensures HhNextOf(s) == old(Set(HhNextOf(s), e.hhPrev, e.hhNext))
  {
    if e.hhPrev != null {
      e.hhPrev.hhNext := e.hhNext;
    }
    if e.hhNext != null {
      e.hhNext.hhPrev := e.hhPrev;
    }
  }

  /** Links of a list among fewer elements. */
  lemma Restrict(s: seq<Elem>, t: seq<Elem>)
    requires Linked(t, PrevOf(s), NextOf(s)) && forall x :: x in t ==> x in s
    ensures Linked(t, PrevOf(t), NextOf(t))
  {
    OtherLinked(t, PrevOf(s), NextOf(s), PrevOf(t), NextOf(t));
  }

  /** The map without an element that is taken out of the list. */
  lemma MapOfWithout(s: seq<Elem>, hash: Key -> nat, k: nat)
    requires KeysOk(s, hash) && k < |s|
    ensures KeysOk(Without(s, k), hash) && MapOf(Without(s, k)) == MapOf(s) - {s[k].key}
  {
    hide MapOf;
    var t := Without(s, k);
    KeysWithout(s, hash, k);
    forall key: Key
      ensures key in MapOf(t) <==> key in MapOf(s) && key != s[k].key
      ensures key in MapOf(t) ==> MapOf(t)[key] == MapOf(s)[key]
    {
      MapOfHas(s, hash, key);
      MapOfHas(t, hash, key);
      KeyWithout(s, hash, k, key);
    }
  }

  lemma WithoutElements(s: seq<Elem>, k: nat)
    requires k < |s| && Distinct(s)
    ensures forall x :: x in Without(s, k) <==> x in s && x != s[k]
  {
    forall x: Elem ensures x in Without(s, k) <==> x in s && x != s[k] {
      WithoutHas(s, k, x);
    }
  }

  lemma TotalNone(chains: seq<seq<Elem>>)
    ensures Total(chains[..0]) == 0
  {
  }

  lemma TotalStep(chains: seq<seq<Elem>>, i: nat)
    requires i < |chains|
    ensures Total(chains[..i + 1]) == Total(chains[..i]) + |chains[i]|
  {
    assert chains[..i + 1][..i] == chains[..i];
  }

  lemma KeysWithout(s: seq<Elem>, hash: Key -> nat, k: nat)
    requires KeysOk(s, hash) && k < |s|
    ensures KeysOk(Without(s, k), hash)
  {
  }

  lemma KeyWithout(s: seq<Elem>, hash: Key -> nat, k: nat, key: Key)
    requires KeysOk(s, hash) && k < |s|
    ensures NoKey(Without(s, k), key) <==> NoKey(s, key) || key == s[k].key
    ensures forall i :: 0 <= i < |s| - 1 && Without(s, k)[i].key == key ==>
              exists j :: 0 <= j < |s| && s[j] == Without(s, k)[i]
  {
    var t := Without(s, k);
    if i :| 0 <= i < |s| && s[i].key == key && i != k {
      assert t[if i < k then i else i - 1] == s[i];
    }
    forall i | 0 <= i < |t| ensures t[i] == s[if i < k then i else i + 1] {
    }
  }

  lemma MapOfGrows(s: seq<Elem>, e: Elem)
    ensures MapOf(s + [e]) == MapOf(s)[e.key := e]
  {
    assert (s + [e])[..|s|] == s;
  }

  method LinkBehind(ghost s: seq<Elem>, last: Elem, e: Elem)
    requires last in s && e !in s && e.next == null
    modifies last`next, e`prev
    ensures PrevOf(s + [e]) == old(PrevOf(s))[e := last]
    ensures NextOf(s + [e]) == Set(old(NextOf(s))[e := null], last, e)
  {
    last.next := e;
    e.prev := last;
  }
}
