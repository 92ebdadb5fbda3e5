/** The buckets of a table: one list of elements for each, and what a change to one of them keeps. */
module UtChains {
  import opened Common
  import opened UtLists

  /** UT_hash_bucket */
  datatype Bucket = Bucket(head: Elem?, count: nat, expandMult: nat)

  /** A bucket holds a list: its first element, and how many there are. */
  ghost predicate ChainOk(s: seq<Elem>, bkt: Bucket, prev: Pointers, next: Pointers)
  {
    Distinct(s) && Linked(s, prev, next) && bkt.head == At(s, 0) && bkt.count == |s|
  }

  ghost predicate ChainsOk(chains: seq<seq<Elem>>, bkts: seq<Bucket>, prev: Pointers, next: Pointers)
  {
    |chains| == |bkts| && forall b :: 0 <= b < |chains| ==> ChainOk(chains[b], bkts[b], prev, next)
  }

  /** Another list in one bucket: the pointers of elements in other buckets must not have changed. */
  lemma ReplaceKeeps(chains: seq<seq<Elem>>, bkts: seq<Bucket>, own: map<Elem, nat>, b: nat,
                     prev: Pointers, next: Pointers, s': seq<Elem>, bkt': Bucket, prev': Pointers, next': Pointers)
    requires ChainsOk(chains, bkts, prev, next) && Owned(chains, own) && b < |chains|
    requires ChainOk(s', bkt', prev', next')
    requires forall e :: e in own && own[e] != b ==>
               (e in prev ==> Same(e, prev, prev')) && (e in next ==> Same(e, next, next'))
    ensures ChainsOk(chains[b := s'], bkts[b := bkt'], prev', next')
  {
    forall c | 0 <= c < |chains| && c != b ensures ChainOk(chains[c], bkts[c], prev', next') {
      var s := chains[c];
      assert ChainOk(s, bkts[c], prev, next);
      forall j | 0 <= j < |s| ensures Same(s[j], prev, prev') && Same(s[j], next, next') {
        assert own[chains[c][j]] == c;
        assert s[j] in prev && s[j] in next;
      }
      OtherLinked(s, prev, next, prev', next');
    }
  }

  ghost function NoElements(n: nat): (cs: seq<seq<Elem>>)
    ensures |cs| == n
  {
    seq(n, _ => [])
  }

  /** Buckets after memset. */
  ghost function NoBuckets(n: nat): seq<Bucket> { seq(n, _ => Bucket(null, 0, 0)) }

  /** An element without a bucket is in none. */
  lemma NotOwned(chains: seq<seq<Elem>>, own: map<Elem, nat>, e: Elem, b: nat)
    requires Owned(chains, own) && e !in own && b < |chains|
    ensures e !in chains[b]
  {
    forall j | 0 <= j < |chains[b]| ensures chains[b][j] != e {
      assert chains[b][j] in own;
    }
  }

  /** What is said of an element's bucket and its links is said again. */
  ghost predicate Carried(e: Elem, own: map<Elem, nat>, prev: Pointers, next: Pointers,
                          own': map<Elem, nat>, prev': Pointers, next': Pointers)
  {
    && e in own && e in own' && own'[e] == own[e]
    && (e in prev ==> Same(e, prev, prev')) && (e in next ==> Same(e, next, next'))
  }

  /** The same lists, seen among more or fewer elements. */
  lemma CarryKeeps(chains: seq<seq<Elem>>, bkts: seq<Bucket>, own: map<Elem, nat>, prev: Pointers, next: Pointers,
                   own': map<Elem, nat>, prev': Pointers, next': Pointers)
    requires ChainsOk(chains, bkts, prev, next) && Owned(chains, own)
    requires forall b, j :: 0 <= b < |chains| && 0 <= j < |chains[b]| ==>
               Carried(chains[b][j], own, prev, next, own', prev', next')
    ensures ChainsOk(chains, bkts, prev', next') && Owned(chains, own')
  {
    forall c | 0 <= c < |chains| ensures ChainOk(chains[c], bkts[c], prev', next') {
      var s := chains[c];
      assert ChainOk(s, bkts[c], prev, next);
      forall j | 0 <= j < |s| ensures Same(s[j], prev, prev') && Same(s[j], next, next') {
        assert Carried(chains[c][j], own, prev, next, own', prev', next');
        assert s[j] in prev && s[j] in next;
      }
      OtherLinked(s, prev, next, prev', next');
    }
    forall b, j | 0 <= b < |chains| && 0 <= j < |chains[b]|
      ensures chains[b][j] in own' && own'[chains[b][j]] == b
    {
      assert own[chains[b][j]] == b && Carried(chains[b][j], own, prev, next, own', prev', next');
    }
  }

  /** HASH_ADD_TO_BKT: a new first element of a bucket. */
  lemma PushKeeps(chains: seq<seq<Elem>>, bkts: seq<Bucket>, own: map<Elem, nat>, b: nat,
                  prev: Pointers, next: Pointers, e: Elem)
    requires ChainsOk(chains, bkts, prev, next) && Owned(chains, own) && b < |chains|
    requires e in own && own[e] == b && e !in chains[b]
    ensures ChainsOk(chains[b := [e] + chains[b]],
                     bkts[b := Bucket(e, bkts[b].count + 1, bkts[b].expandMult)],
                     Set(prev[e := null], bkts[b].head, e), next[e := bkts[b].head])
    ensures Owned(chains[b := [e] + chains[b]], own)
  {
    var s := chains[b];
    assert ChainOk(s, bkts[b], prev, next);
    FrontLinked(s, e, prev, next);
    assert s != [] ==> own[chains[b][0]] == b;
    ReplaceKeeps(chains, bkts, own, b, prev, next, [e] + s, Bucket(e, bkts[b].count + 1, bkts[b].expandMult),
                 Set(prev[e := null], bkts[b].head, e), next[e := bkts[b].head]);
    forall j | 0 <= j < |[e] + s| ensures ([e] + s)[j] in own && own[([e] + s)[j]] == b {
      assert j > 0 ==> ([e] + s)[j] == chains[b][j - 1];
    }
  }

  /** HASH_DEL_IN_BKT: an element taken out of a bucket. */
  lemma DropKeeps(chains: seq<seq<Elem>>, bkts: seq<Bucket>, own: map<Elem, nat>, b: nat,
                  prev: Pointers, next: Pointers, k: nat)
    requires ChainsOk(chains, bkts, prev, next) && Owned(chains, own) && b < |chains| && k < |chains[b]|
    ensures var s := chains[b];
            var e, bkt := s[k], bkts[b];
            && e in prev && e in next && bkt.count > 0
            && (bkt.head == e <==> k == 0) && prev[e] == At(s, k - 1) && next[e] == At(s, k + 1)
            && ChainsOk(chains[b := Without(s, k)],
                        bkts[b := Bucket(if bkt.head == e then next[e] else bkt.head, bkt.count - 1, bkt.expandMult)],
                        Set(prev, next[e], prev[e]), Set(next, prev[e], next[e]))
    ensures Owned(chains[b := Without(chains[b], k)], own)
  {
    var s := chains[b];
    var e, bkt := s[k], bkts[b];
    assert ChainOk(s, bkt, prev, next);
    assert e in prev && prev[e] == At(s, k - 1) && next[e] == At(s, k + 1);
    WithoutLinked(s, k, prev, next);
    WithoutAt(s, k, 0);
    assert k > 0 ==> own[chains[b][k - 1]] == b;
    assert k + 1 < |s| ==> own[chains[b][k + 1]] == b;
    ReplaceKeeps(chains, bkts, own, b, prev, next, Without(s, k),
                 Bucket(if bkt.head == e then next[e] else bkt.head, bkt.count - 1, bkt.expandMult),
                 Set(prev, next[e], prev[e]), Set(next, prev[e], next[e]));
    forall j | 0 <= j < |Without(s, k)| ensures Without(s, k)[j] in own && own[Without(s, k)[j]] == b {
      WithoutAt(s, k, j);
      assert own[chains[b][if j < k then j else j + 1]] == b;
    }
  }

  // ---------- how many there are ----------

  function Total(chains: seq<seq<Elem>>): nat
  {
    if chains == [] then 0 else Total(chains[..|chains| - 1]) + |chains[|chains| - 1]|
  }

  ghost function SetOf(s: seq<Elem>): set<Elem> { set e | e in s }

  lemma {:induction false} DistinctSize(s: seq<Elem>)
    requires Distinct(s)
    ensures |SetOf(s)| == |s|
  {
    if s != [] {
      var t, e := s[..|s| - 1], s[|s| - 1];
      DistinctSize(t);
      assert e !in SetOf(t);
      assert SetOf(s) == SetOf(t) + {e};
    }
  }

  /** The elements of the first buckets. */
  ghost function Below(own: map<Elem, nat>, n: nat): set<Elem> { set e | e in own && own[e] < n }

  lemma {:induction false} TotalIsSize(chains: seq<seq<Elem>>, own: map<Elem, nat>)
    requires Owned(chains, own) && forall b :: 0 <= b < |chains| ==> Distinct(chains[b])
    requires forall e :: e in own && own[e] < |chains| ==> e in chains[own[e]]
    ensures Total(chains) == |Below(own, |chains|)|
  {
    if chains == [] {
      assert Below(own, 0) == {};
    } else {
      var n := |chains| - 1;
      var t, s := chains[..n], chains[n];
      assert Owned(t, own) by {
        forall b, j | 0 <= b < |t| && 0 <= j < |t[b]| ensures t[b][j] in own && own[t[b][j]] == b {
          assert own[chains[b][j]] == b;
        }
      }
      TotalIsSize(t, own);
      DistinctSize(s);
      assert SetOf(s) !! Below(own, n) by {
        forall e | e in s ensures e in own && own[e] == n {
          var j :| 0 <= j < |s| && s[j] == e;
          assert own[chains[n][j]] == n;
        }
      }
      assert Below(own, |chains|) == Below(own, n) + SetOf(s) by {
        forall e | e in s ensures e in own && own[e] == n {
          var j :| 0 <= j < |s| && s[j] == e;
          assert own[chains[n][j]] == n;
        }
      }
    }
  }
}
