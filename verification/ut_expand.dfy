/** What a doubling of the buckets does to the chains, as a function and step by step. */
module UtExpand {
  import opened Common
  import opened UtLists
  import opened UtChains

  /** HASH_TO_BKT: the low bits of a hash value, for a number of buckets that is a power of two. */
  function Slot(hashv: nat, buckets: nat): (b: nat)
    requires buckets > 0
    ensures b < buckets
  {
    hashv % buckets
  }

  /** `a & b` */
  function And(a: nat, b: nat): nat {
    if a == 0 || b == 0 then 0 else 2 * And(a / 2, b / 2) + if a % 2 == 1 && b % 2 == 1 then 1 else 0
  }

  /** The bucket is `hashv & (num_bkts - 1)`: the number of buckets is a power of two. */
  lemma {:induction false} SlotIsMask(hashv: nat, k: nat)
    ensures Slot(hashv, Pow2(k)) == And(hashv, Pow2(k) - 1)
  {
    hide And, Slot;
    if k > 0 {
      SlotIsMask(hashv / 2, k - 1);
      SlotStep(hashv, Pow2(k - 1));
      AndStep(hashv, Pow2(k - 1));
    } else {
      NoMask(hashv);
    }
  }

  lemma NoMask(x: nat)
    ensures And(x, 0) == 0 && Slot(x, 1) == 0
  {
  }

  lemma AndStep(x: nat, n: nat)
    requires n > 0
    ensures And(x, 2 * n - 1) == 2 * And(x / 2, n - 1) + x % 2
  {
    assert (2 * n - 1) / 2 == n - 1 && (2 * n - 1) % 2 == 1;
    NoMask(x / 2);
  }

  lemma SlotStep(x: nat, n: nat)
    requires n > 0
    ensures Slot(x, 2 * n) == 2 * Slot(x / 2, n) + x % 2
  {
    var h := x / 2;
    Parts(h, n);
    Twice(n, 2 * n, h / n);
    Remainder(x, 2 * n, h / n, 2 * (h % n) + x % 2);
  }

  /** The bucket of `n` that the elements of bucket `b` of `2 * n` come from. */
  function Origin(b: nat, n: nat): nat { if b < n then b else b - n }

  lemma SlotOrigin(hashv: nat, n: nat)
    requires n > 0
    ensures Origin(Slot(hashv, 2 * n), n) == Slot(hashv, n)
  {
    var m := 2 * n;
    var q, r := hashv / m, hashv % m;
    Parts(hashv, m);
    Twice(n, m, q);
    if r < n {
      Remainder(hashv, n, 2 * q, r);
    } else {
      Remainder(hashv, n, 2 * q + 1, r - n);
    }
  }

  lemma Parts(x: nat, m: nat)
    requires m > 0
    ensures x == m * (x / m) + x % m && x / m >= 0
  {
  }

  lemma Twice(n: nat, m: nat, q: int)
    requires m == 2 * n
    ensures m * q == n * (2 * q) && n * (2 * q + 1) == n * (2 * q) + n
  {
  }

  lemma Remainder(x: nat, n: nat, q: nat, r: nat)
    requires r < n && x == n * q + r
    ensures x % n == r
  {
    var d := x / n - q;
    assert n * d == r - x % n;
    AtLeastOnce(n, d);
  }

  lemma AtLeastOnce(n: int, d: int)
    requires n >= 0
    ensures d >= 1 ==> n * d >= n
    ensures d <= -1 ==> n * d <= -n
  {
  }

  /** The elements of a chain that go to bucket `b`, last one first, as each is put in front. */
  ghost function Split(c: seq<Elem>, own: map<Elem, nat>, b: nat): (s: seq<Elem>)
    ensures forall e <- s :: e in c && e in own && own[e] == b
  {
    if c == [] then []
    else
      var e, t := c[|c| - 1], Split(c[..|c| - 1], own, b);
      if e in own && own[e] == b then [e] + t else t
  }

  lemma {:induction false} SplitHasAll(c: seq<Elem>, own: map<Elem, nat>, b: nat, e: Elem)
    requires e in c && e in own && own[e] == b
    ensures e in Split(c, own, b)
  {
    if e != c[|c| - 1] {
      assert e in c[..|c| - 1];
      SplitHasAll(c[..|c| - 1], own, b, e);
    }
  }

  /** Ceiling of n / b, as the comment at the macro has it: the least chain length that is enough. */
  function Ceil(n: nat, b: nat): nat
    requires b > 0
  {
    n / b + if n % b != 0 then 1 else 0
  }

  lemma CeilIsLeast(n: nat, b: nat, q: nat)
    requires b > 0
    ensures Ceil(n, b) <= q <==> n <= b * q
  {
    var d, r := n / b, n % b;
    assert n == b * d + r;
    if q <= d - 1 {
      assert b * q <= b * (d - 1) == b * d - b;
    } else if q == d {
    } else {
      assert b * q >= b * (d + 1) == b * d + b;
    }
  }

  /** How many elements sit deeper in a chain than the ideal length. */
  function Excess(chains: seq<seq<Elem>>, ideal: nat): nat
  {
    if chains == [] then 0 else Over(|chains[0]|, ideal) + Excess(chains[1..], ideal)
  }

  function Over(count: nat, ideal: nat): nat { if count > ideal then count - ideal else 0 }

  lemma {:induction false} ExcessUpdate(chains: seq<seq<Elem>>, ideal: nat, b: nat, s: seq<Elem>)
    requires b < |chains|
    ensures Excess(chains[b := s], ideal) == Excess(chains, ideal) - Over(|chains[b]|, ideal) + Over(|s|, ideal)
  {
    if b > 0 {
      ExcessUpdate(chains[1..], ideal, b - 1, s);
      assert chains[b := s][1..] == chains[1..][b - 1 := s];
    } else {
      assert chains[b := s][1..] == chains[1..];
    }
  }

  /** The part of a chain that has been moved when bucket `i` is worked on and `j` of its elements are done. */
  function Part(chains: seq<seq<Elem>>, i: nat, j: nat, c: nat): seq<Elem>
    requires c < |chains| && (c == i ==> j <= |chains[c]|)
  {
    if c < i then chains[c] else if c == i then chains[c][..j] else []
  }

  /** How far the loops of HASH_EXPAND_BUCKETS have come. */
  ghost predicate Moved(old': seq<seq<Elem>>, i: nat, j: nat, chains: seq<seq<Elem>>, bkts: seq<Bucket>,
                        own: map<Elem, nat>, prev: Pointers, next: Pointers, ideal: nat, nonideal: nat)
  {
    && |chains| == |bkts| == 2 * |old'| && (i < |old'| ==> j <= |old'[i]|)
    && ChainsOk(chains, bkts, prev, next) && Owned(chains, own)
    && AllSplit(old', i, j, chains, own)
    && Pending(old', i, j, next)
    && nonideal == Excess(chains, ideal)
    && Mults(chains, bkts, ideal)
  }

  /** The new chains are the halves of what has been moved. */
  ghost predicate AllSplit(old': seq<seq<Elem>>, i: nat, j: nat, chains: seq<seq<Elem>>, own: map<Elem, nat>)
    requires |chains| == 2 * |old'| && (i < |old'| ==> j <= |old'[i]|)
  {
    forall b :: 0 <= b < |chains| ==> chains[b] == Split(Part(old', i, j, Origin(b, |old'|)), own, b)
  }

  /** The threshold of a bucket is raised by as many times as it exceeds the ideal length. */
  ghost predicate Mults(chains: seq<seq<Elem>>, bkts: seq<Bucket>, ideal: nat)
    requires |chains| == |bkts|
  {
    ideal > 0 && forall b :: 0 <= b < |chains| ==>
      bkts[b].expandMult == if |chains[b]| > ideal then |chains[b]| / ideal else 0
  }

  /** Elements are in as many chains as there are buckets, each in half as many to start with. */
  ghost predicate Halves(old': seq<seq<Elem>>, own: map<Elem, nat>)
  {
    && (forall c :: 0 <= c < |old'| ==> Distinct(old'[c]))
    && (forall c, k :: 0 <= c < |old'| && 0 <= k < |old'[c]| ==>
          old'[c][k] in own && own[old'[c][k]] < 2 * |old'| && Origin(own[old'[c][k]], |old'|) == c)
  }

  /** The chains not yet worked on can still be followed. */
  ghost predicate Pending(old': seq<seq<Elem>>, i: nat, j: nat, next: Pointers)
  {
    forall c, k :: 0 <= c < |old'| && 0 <= k < |old'[c]| && (c > i || (c == i && k >= j)) ==>
      old'[c][k] in next && next[old'[c][k]] == At(old'[c], k + 1)
  }

  /** Before the loops. */
  lemma NothingMoved(old': seq<seq<Elem>>, chains: seq<seq<Elem>>, bkts: seq<Bucket>, own: map<Elem, nat>,
                     oldBkts: seq<Bucket>, prev: Pointers, next: Pointers, ideal: nat)
    requires ideal > 0 && |chains| == |bkts| == 2 * |old'| && ChainsOk(old', oldBkts, prev, next)
    requires forall b :: 0 <= b < |chains| ==> chains[b] == [] && bkts[b] == Bucket(null, 0, 0)
    ensures Moved(old', 0, 0, chains, bkts, own, prev, next, ideal, 0)
  {
    NoExcess(chains, ideal);
    forall c, k | 0 <= c < |old'| && 0 <= k < |old'[c]|
      ensures old'[c][k] in next && next[old'[c][k]] == At(old'[c], k + 1)
    {
      assert ChainOk(old'[c], oldBkts[c], prev, next);
    }
  }

  lemma {:induction false} NoExcess(chains: seq<seq<Elem>>, ideal: nat)
    requires forall b :: 0 <= b < |chains| ==> chains[b] == []
    ensures Excess(chains, ideal) == 0
  {
    if chains != [] {
      NoExcess(chains[1..], ideal);
    }
  }

  /** The bucket that an element has been moved to. */
  ghost function Receiver(bkt: Bucket, e: Elem, ideal: nat): Bucket
  {
    var count := bkt.count + 1;
    Bucket(e, count, if count > ideal > 0 then count / ideal else bkt.expandMult)
  }

  /** One element goes to the front of its new bucket. */
  lemma MoveStep(old': seq<seq<Elem>>, i: nat, j: nat, chains: seq<seq<Elem>>, bkts: seq<Bucket>,
                 own: map<Elem, nat>, prev: Pointers, next: Pointers, ideal: nat, nonideal: nat, e: Elem, b: nat)
    requires Moved(old', i, j, chains, bkts, own, prev, next, ideal, nonideal) && Halves(old', own)
    requires i < |old'| && j < |old'[i]| && e == old'[i][j]
    requires e in own && b == own[e] < |chains| && |bkts| == |chains|
    ensures e in next && next[e] == At(old'[i], j + 1) && b < 2 * |old'|
    ensures Moved(old', i, j + 1, chains[b := [e] + chains[b]], bkts[b := Receiver(bkts[b], e, ideal)],
                  own, Set(prev[e := null], bkts[b].head, e), next[e := bkts[b].head], ideal,
                  if bkts[b].count + 1 > ideal then nonideal + 1 else nonideal)
  {
    hide Excess, Split, Linked, Owned, Distinct;
    var chains', bkt' := chains[b := [e] + chains[b]], Receiver(bkts[b], e, ideal);
    var prev', next' := Set(prev[e := null], bkts[b].head, e), next[e := bkts[b].head];
    assert ChainOk(chains[b], bkts[b], prev, next);
    NotYetMoved(old', i, j, chains, own, e, b);
    PushKeeps(chains, bkts, own, b, prev, next, e);
    MultKeeps(chains', bkts, b, Bucket(e, bkts[b].count + 1, bkts[b].expandMult), bkt', prev', next');
    ExcessUpdate(chains, ideal, b, [e] + chains[b]);
    AllSplitStep(old', i, j, chains, own, e, b);
    StillPending(old', i, j, next, own, bkts[b].head);
    hide ChainsOk, ChainOk, Pending, AllSplit, Set, At;
    assert Mults(chains', bkts[b := bkt'], ideal);
  }

  lemma NotYetMoved(old': seq<seq<Elem>>, i: nat, j: nat, chains: seq<seq<Elem>>, own: map<Elem, nat>, e: Elem, b: nat)
    requires |chains| == 2 * |old'| && i < |old'| && j < |old'[i]| && e == old'[i][j]
    requires AllSplit(old', i, j, chains, own) && Halves(old', own)
    requires e in own && b == own[e] < |chains|
    ensures e !in chains[b]
  {
    hide Split;
    assert Origin(own[old'[i][j]], |old'|) == i;
    assert chains[b] == Split(Part(old', i, j, i), own, b);
    assert e !in old'[i][..j] by {
      assert Distinct(old'[i]);
    }
  }

  lemma MultKeeps(chains: seq<seq<Elem>>, bkts: seq<Bucket>, b: nat, x: Bucket, y: Bucket, prev: Pointers,
                  next: Pointers)
    requires |chains| == |bkts| && b < |bkts| && ChainsOk(chains, bkts[b := x], prev, next)
    requires x.head == y.head && x.count == y.count
    ensures ChainsOk(chains, bkts[b := y], prev, next)
  {
    forall c | 0 <= c < |chains| ensures ChainOk(chains[c], bkts[b := y][c], prev, next) {
      assert ChainOk(chains[c], bkts[b := x][c], prev, next);
    }
  }

  lemma AllSplitStep(old': seq<seq<Elem>>, i: nat, j: nat, chains: seq<seq<Elem>>, own: map<Elem, nat>, e: Elem, b: nat)
    requires |chains| == 2 * |old'| && i < |old'| && j < |old'[i]| && e == old'[i][j]
    requires AllSplit(old', i, j, chains, own) && Halves(old', own)
    requires e in own && b == own[e] < |chains|
    ensures AllSplit(old', i, j + 1, chains[b := [e] + chains[b]], own)
  {
    hide Split;
    var chains' := chains[b := [e] + chains[b]];
    assert Origin(own[old'[i][j]], |old'|) == i;
    forall d | 0 <= d < |chains'| ensures chains'[d] == Split(Part(old', i, j + 1, Origin(d, |old'|)), own, d) {
      assert chains[d] == Split(Part(old', i, j, Origin(d, |old'|)), own, d);
      if Origin(d, |old'|) == i {
        SplitStep(old'[i], j, own, d);
      }
    }
  }

  lemma SplitStep(c: seq<Elem>, j: nat, own: map<Elem, nat>, d: nat)
    requires j < |c| && c[j] in own
    ensures Split(c[..j + 1], own, d) ==
            (if own[c[j]] == d then [c[j]] + Split(c[..j], own, d) else Split(c[..j], own, d))
  {
    assert c[..j + 1][..j] == c[..j];
  }

  lemma StillPending(old': seq<seq<Elem>>, i: nat, j: nat, next: Pointers, own: map<Elem, nat>, to: Elem?)
    requires Pending(old', i, j, next) && i < |old'| && j < |old'[i]| && Halves(old', own)
    ensures Pending(old', i, j + 1, next[old'[i][j] := to])
  {
    var e := old'[i][j];
    forall c, k | 0 <= c < |old'| && 0 <= k < |old'[c]| && (c > i || (c == i && k >= j + 1))
      ensures old'[c][k] in next && old'[c][k] != e && next[old'[c][k]] == At(old'[c], k + 1)
    {
      assert Origin(own[old'[c][k]], |old'|) == c && Origin(own[old'[i][j]], |old'|) == i;
      if c == i {
        assert Distinct(old'[i]);
      }
    }
  }

  /** The next bucket. */
  lemma NextBucket(old': seq<seq<Elem>>, i: nat, chains: seq<seq<Elem>>, bkts: seq<Bucket>,
                   own: map<Elem, nat>, prev: Pointers, next: Pointers, ideal: nat, nonideal: nat)
    requires i < |old'| && Moved(old', i, |old'[i]|, chains, bkts, own, prev, next, ideal, nonideal)
    ensures Moved(old', i + 1, 0, chains, bkts, own, prev, next, ideal, nonideal)
  {
    hide Split, ChainsOk, Owned, Excess, Mults;
    forall b | 0 <= b < |chains| ensures chains[b] == Split(Part(old', i + 1, 0, Origin(b, |old'|)), own, b) {
      var c := Origin(b, |old'|);
      assert chains[b] == Split(Part(old', i, |old'[i]|, c), own, b);
      assert Part(old', i + 1, 0, c) == Part(old', i, |old'[i]|, c);
    }
  }
}
