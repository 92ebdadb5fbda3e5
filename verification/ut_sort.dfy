/** HASH_SRT: the merge sort of the application order, on the links of the elements themselves. */
module UtSort {
  import opened Common
  import opened UtLists
  import opened UtChains
  import opened UtExpand
  import opened UtHash
  import opened UtMerge

  // ---------- links in the middle of a pass ----------

  /** Elements already put out: linked both ways, but for the next pointer of the last. */
  ghost predicate Emitted(s: seq<Elem>, prev: Pointers, next: Pointers)
  {
    forall i {:trigger s[i] in prev} {:trigger s[i] in next} {:trigger prev[s[i]]} {:trigger next[s[i]]} ::
      0 <= i < |s| ==>
      s[i] in prev && s[i] in next && prev[s[i]] == At(s, i - 1) && (i < |s| - 1 ==> next[s[i]] == At(s, i + 1))
  }

  /** A run still to be merged: the next pointers lead to its last element. */
  ghost predicate Followed(s: seq<Elem>, next: Pointers)
  {
    forall i {:trigger s[i] in next} {:trigger next[s[i]]} :: 0 <= i < |s| ==>
      s[i] in next && (i < |s| - 1 ==> next[s[i]] == At(s, i + 1))
  }

  /** The rest of the list: the next pointers lead to its end. */
  ghost predicate Ended(s: seq<Elem>, next: Pointers)
  {
    forall i {:trigger s[i] in next} {:trigger next[s[i]]} :: 0 <= i < |s| ==>
      s[i] in next && next[s[i]] == At(s, i + 1)
  }

  /** A pass has put `out` out, is to merge `p` with the start of `q`, and comes to the rest of `q` later. */
  ghost predicate Passing(out: seq<Elem>, p: seq<Elem>, q: seq<Elem>, prev: Pointers, next: Pointers)
  {
    && Distinct(out + p + q)
    && Emitted(out, prev, next) && Followed(p, next) && Ended(q, next)
    && forall i :: 0 <= i < |p + q| ==> (p + q)[i] in prev
  }

  /** An element is put out: it is behind the last one. */
  lemma EmittedMore(out: seq<Elem>, e: Elem, prev: Pointers, next: Pointers)
    requires Emitted(out, prev, next) && Distinct(out + [e]) && e in prev && e in next
    ensures Emitted(out + [e], prev[e := At(out, |out| - 1)], Set(next, At(out, |out| - 1), e))
  {
    var t := out + [e];
    var prev', next' := prev[e := At(out, |out| - 1)], Set(next, At(out, |out| - 1), e);
    forall i | 0 <= i < |t|
      ensures t[i] in prev' && t[i] in next' && prev'[t[i]] == At(t, i - 1)
              && (i < |t| - 1 ==> next'[t[i]] == At(t, i + 1))
    {
      assert t[|out|] == e;
      assert i < |out| ==> t[i] == out[i] && t[i] != t[|out|] && out[i] in prev;
      assert i < |out| - 1 ==> t[i] != t[|out| - 1];
    }
  }

  lemma EmitP(out: seq<Elem>, p: seq<Elem>, q: seq<Elem>, prev: Pointers, next: Pointers)
    requires Passing(out, p, q, prev, next) && p != []
    ensures p[0] in next && (|p| > 1 ==> next[p[0]] == p[1])
    ensures var l := At(out, |out| - 1);
            Passing(out + [p[0]], p[1..], q, prev[p[0] := l], Set(next, l, p[0]))
  {
    var l := At(out, |out| - 1);
    var all, all' := out + p + q, out + [p[0]] + p[1..] + q;
    assert all' == all;
    assert (p + q)[0] == p[0] == all[|out|];
    assert forall i :: 0 <= i < |out| + 1 ==> (out + [p[0]])[i] == all[i];
    EmittedMore(out, p[0], prev, next);
    assert p[0] in next;
    forall i | 0 <= i < |p| - 1
      ensures p[1..][i] in Set(next, l, p[0]) && (i < |p| - 2 ==> Set(next, l, p[0])[p[1..][i]] == At(p[1..], i + 1))
    {
      assert p[i + 1] in next && all[|out| + i + 1] == p[i + 1];
      assert out != [] ==> all[|out| - 1] != all[|out| + i + 1];
    }
    forall i | 0 <= i < |q| ensures q[i] in Set(next, l, p[0]) && Set(next, l, p[0])[q[i]] == At(q, i + 1) {
      assert q[i] in next && all[|out| + |p| + i] == q[i];
      assert out != [] ==> all[|out| - 1] != all[|out| + |p| + i];
    }
    assert forall i :: 0 <= i < |p[1..] + q| ==> (p[1..] + q)[i] == (p + q)[i + 1];
  }

  lemma EmitQ(out: seq<Elem>, p: seq<Elem>, q: seq<Elem>, prev: Pointers, next: Pointers)
    requires Passing(out, p, q, prev, next) && q != []
    ensures q[0] in next && next[q[0]] == At(q, 1)
    ensures var l := At(out, |out| - 1);
            Passing(out + [q[0]], p, q[1..], prev[q[0] := l], Set(next, l, q[0]))
  {
    var l := At(out, |out| - 1);
    var all, all' := out + p + q, out + [q[0]] + p + q[1..];
    assert (p + q)[|p|] == q[0] == all[|out| + |p|];
    assert q[0] in next;
    assert Distinct(all') by {
      assert forall i :: 0 <= i < |all'| ==>
        all'[i] ==
          all[if i < |out| then i else if i == |out| then |out| + |p| else if i <= |out| + |p| then i - 1 else i];
    }
    assert forall i :: 0 <= i < |out| + 1 ==> (out + [q[0]])[i] == all'[i];
    EmittedMore(out, q[0], prev, next);
    forall i | 0 <= i < |p|
      ensures p[i] in Set(next, l, q[0]) && (i < |p| - 1 ==> Set(next, l, q[0])[p[i]] == At(p, i + 1))
    {
      assert p[i] in next && all[|out| + i] == p[i];
      assert out != [] ==> all[|out| - 1] != all[|out| + i];
    }
    forall i | 0 <= i < |q| - 1
        ensures q[1..][i] in Set(next, l, q[0]) && Set(next, l, q[0])[q[1..][i]] == At(q[1..], i + 1) {
      assert q[i + 1] in next && all[|out| + |p| + i + 1] == q[i + 1];
      assert out != [] ==> all[|out| - 1] != all[|out| + |p| + i + 1];
    }
    forall i | 0 <= i < |p + q[1..]| ensures (p + q[1..])[i] in prev {
      assert (p + q[1..])[i] == (p + q)[if i < |p| then i else i + 1];
    }
  }

  // ---------- what is still to come in a pass ----------

  /** The merge of `p` with at most `n` elements of `q`, and the pass over the rest. */
  ghost function Rest(p: seq<Elem>, q: seq<Elem>, n: nat, k: nat, cmp: (Elem, Elem) -> int): seq<Elem>
    requires k > 0
  {
    Merge(p, q[..Min(n, |q|)], cmp) + Pass(q[Min(n, |q|)..], k, cmp)
  }

  lemma RestStart(s: seq<Elem>, k: nat, cmp: (Elem, Elem) -> int)
    requires k > 0 && s != []
    ensures Pass(s, k, cmp) == Rest(s[..Min(k, |s|)], s[Min(k, |s|)..], k, k, cmp)
  {
    hide *;
    PassStep(s, k, cmp);
    var p, q := Min(k, |s|), Min(2 * k, |s|);
    MinTwice(k, |s|);
    SliceTwice(s, p, q);
    RestIs(s[..p], s[p..], k, k, cmp, q - p);
  }

  lemma MinTwice(k: nat, n: nat)
    ensures Min(k, n) <= Min(2 * k, n) <= n && Min(k, n - Min(k, n)) == Min(2 * k, n) - Min(k, n)
  {
  }

  lemma RestIs(p: seq<Elem>, q: seq<Elem>, n: nat, k: nat, cmp: (Elem, Elem) -> int, m: nat)
    requires k > 0 && m == Min(n, |q|)
    ensures Rest(p, q, n, k, cmp) == Merge(p, q[..m], cmp) + Pass(q[m..], k, cmp)
  {
    hide Merge, Pass;
  }

  lemma SliceTwice(s: seq<Elem>, p: nat, q: nat)
    requires p <= q <= |s|
    ensures s[p..][..q - p] == s[p..q] && s[p..][q - p..] == s[q..]
  {
  }

  lemma RestP(p: seq<Elem>, q: seq<Elem>, n: nat, k: nat, cmp: (Elem, Elem) -> int)
    requires k > 0 && p != [] && (n == 0 || q == [] || cmp(p[0], q[0]) <= 0)
    ensures Rest(p, q, n, k, cmp) == [p[0]] + Rest(p[1..], q, n, k, cmp)
  {
    hide Pass;
    var b := q[..Min(n, |q|)];
    assert b != [] ==> b[0] == q[0];
    assert Merge(p, b, cmp) == [p[0]] + Merge(p[1..], b, cmp) by {
      if b == [] {
        MergeNone(p, cmp);
        MergeNone(p[1..], cmp);
        assert p == [p[0]] + p[1..];
      }
    }
  }

  lemma MergeNone(p: seq<Elem>, cmp: (Elem, Elem) -> int)
    ensures Merge(p, [], cmp) == p
  {
  }

  lemma RestQ(p: seq<Elem>, q: seq<Elem>, n: nat, k: nat, cmp: (Elem, Elem) -> int)
    requires k > 0 && n > 0 && q != [] && (p == [] || cmp(p[0], q[0]) > 0)
    ensures Rest(p, q, n, k, cmp) == [q[0]] + Rest(p, q[1..], n - 1, k, cmp)
  {
    hide Pass;
    var b := q[..Min(n, |q|)];
    assert b[0] == q[0] && b[1..] == q[1..][..Min(n - 1, |q| - 1)];
    assert q[1..][Min(n - 1, |q| - 1)..] == q[Min(n, |q|)..];
    assert Merge(p, b, cmp) == [q[0]] + Merge(p, b[1..], cmp) by {
      assert b == [b[0]] + b[1..];
    }
  }

  lemma RestDone(q: seq<Elem>, n: nat, k: nat, cmp: (Elem, Elem) -> int)
    requires k > 0 && (n == 0 || q == [])
    ensures Rest([], q, n, k, cmp) == Pass(q, k, cmp)
  {
    assert q[..0] == [] && q[0..] == q;
  }

  // ---------- the loops ----------

  /** Where a pass stands, with the elements as they are linked now. */
  ghost predicate PassingNow(all: seq<Elem>, out: seq<Elem>, p: seq<Elem>, q: seq<Elem>)
    reads all`prev, all`next
  {
    Passing(out, p, q, PrevOf(all), NextOf(all))
  }

  /** The element chosen is linked behind the last one put out. */
  method Emit(ghost all: seq<Elem>, e: Elem, tail: Elem?, list: Elem?) returns (list': Elem?)
    requires e in all && (tail != null ==> tail in all && tail != e)
    modifies all`prev, all`next
    ensures PrevOf(all) == old(PrevOf(all))[e := tail] && NextOf(all) == Set(old(NextOf(all)), tail, e)
    ensures list' == if tail != null then list else e
  {
    list' := list;
    if tail != null {
      tail.next := e;
    } else {
      list' := e;
    }
    e.prev := tail;
  }

  /** The loop that merges the `psize` elements from `p` with at most `qsize` from `q`. */
  method MergeRuns(ghost all: seq<Elem>, p0: Elem?, psize0: nat, q0: Elem?, insize: nat, list0: Elem?, tail0: Elem?,
                   cmp: (Elem, Elem) -> int, ghost out0: seq<Elem>, ghost ps0: seq<Elem>, ghost qs0: seq<Elem>)
    returns (q: Elem?, list: Elem?, tail: Elem?, ghost out: seq<Elem>, ghost qs: seq<Elem>)
    requires PassingNow(all, out0, ps0, qs0) && |ps0| == psize0 > 0 && insize > 0
    requires p0 == At(ps0, 0) && q0 == At(qs0, 0) && list0 == At(out0, 0) && tail0 == At(out0, |out0| - 1)
    modifies all`prev, all`next
    ensures PassingNow(all, out, [], qs) && q == At(qs, 0) && list == At(out, 0) && tail == At(out, |out| - 1)
    ensures out + Pass(qs, insize, cmp) == out0 + Rest(ps0, qs0, insize, insize, cmp)
    ensures |out| > |out0| && |qs| <= |qs0| && |out| <= |out0| + psize0 + insize
    ensures qs != [] ==> |out| == |out0| + psize0 + insize
  {
    hide Passing, Rest, Pass, At, PrevOf, NextOf, Set;
    var p, psize, qsize := p0, psize0, insize;
    q, list, tail, out, qs := q0, list0, tail0, out0, qs0;
    ghost var ps := ps0;
    while psize > 0 || (qsize > 0 && q != null)
      invariant 0 <= qsize <= insize
      invariant PassingNow(all, out, ps, qs) && |ps| == psize && (psize > 0 ==> p == At(ps, 0)) && q == At(qs, 0)
      invariant list == At(out, 0) && tail == At(out, |out| - 1)
      invariant out + Rest(ps, qs, qsize, insize, cmp) == out0 + Rest(ps0, qs0, insize, insize, cmp)
      invariant |out| + psize + qsize == |out0| + psize0 + insize && |qs| <= |qs0|
      decreases psize + qsize
    {
      var e: Elem;
      ghost var was := out;
      HeadIs(ps);
      HeadIs(qs);
      if psize == 0 {
        e := q;
        QFacts(all, out, ps, qs);
        RestQ(ps, qs, qsize, insize, cmp);
        q := q.next;
        qsize := qsize - 1;
        qs := qs[1..];
      } else if qsize == 0 || q == null {
        e := p;
        PFacts(all, out, ps, qs);
        RestP(ps, qs, qsize, insize, cmp);
        p := p.next;
        psize := psize - 1;
        ps := ps[1..];
      } else if cmp(p, q) <= 0 {
        e := p;
        PFacts(all, out, ps, qs);
        RestP(ps, qs, qsize, insize, cmp);
        p := p.next;
        psize := psize - 1;
        ps := ps[1..];
      } else {
        e := q;
        QFacts(all, out, ps, qs);
        RestQ(ps, qs, qsize, insize, cmp);
        q := q.next;
        qsize := qsize - 1;
        qs := qs[1..];
      }
      list := Emit(all, e, tail, list);
      out := out + [e];
      LastIs(was, e);
      assert was + ([e] + Rest(ps, qs, qsize, insize, cmp)) == out + Rest(ps, qs, qsize, insize, cmp);
      tail := e;
    }
    HeadIs(qs);
    RestDone(qs, qsize, insize, cmp);
  }

  lemma HeadIs(s: seq<Elem>)
    ensures At(s, 0) == if s == [] then null else s[0]
  {
  }

  lemma LastIs(s: seq<Elem>, e: Elem)
    ensures At(s + [e], |s|) == e && At(s + [e], 0) == if s == [] then e else At(s, 0)
    ensures At(s, |s| - 1) == null <==> s == []
  {
  }

  lemma PFacts(all: seq<Elem>, out: seq<Elem>, p: seq<Elem>, q: seq<Elem>)
    requires PassingNow(all, out, p, q) && p != []
    ensures p[0] in all && (|p| > 1 ==> p[0].next == At(p[1..], 0))
    ensures var l := At(out, |out| - 1);
            && (l != null ==> l in all && l != p[0])
            && Passing(out + [p[0]], p[1..], q, PrevOf(all)[p[0] := l], Set(NextOf(all), l, p[0]))
  {
    EmitP(out, p, q, PrevOf(all), NextOf(all));
    LastApart(out, p, q, 0);
    if out != [] {
      assert out[|out| - 1] in PrevOf(all);
    }
  }

  lemma QFacts(all: seq<Elem>, out: seq<Elem>, p: seq<Elem>, q: seq<Elem>)
    requires PassingNow(all, out, p, q) && q != []
    ensures q[0] in all && q[0].next == At(q[1..], 0)
    ensures var l := At(out, |out| - 1);
            && (l != null ==> l in all && l != q[0])
            && Passing(out + [q[0]], p, q[1..], PrevOf(all)[q[0] := l], Set(NextOf(all), l, q[0]))
  {
    EmitQ(out, p, q, PrevOf(all), NextOf(all));
    LastApart(out, p, q, |p|);
    if out != [] {
      assert out[|out| - 1] in PrevOf(all);
    }
  }

  lemma LastApart(out: seq<Elem>, p: seq<Elem>, q: seq<Elem>, i: nat)
    requires Distinct(out + p + q) && i < |p + q|
    ensures out != [] ==> out[|out| - 1] != (p + q)[i]
  {
    var all := out + p + q;
    if out != [] {
      assert all[|out| - 1] == out[|out| - 1] && all[|out| + i] == (p + q)[i];
    }
  }

  /** Where a run of `insize` elements from `p` ends. */
  method SkipRun(ghost all: seq<Elem>, p: Elem, insize: nat, ghost out: seq<Elem>, ghost s: seq<Elem>)
    returns (psize: nat, q: Elem?)
    requires PassingNow(all, out, [], s) && s != [] && p == s[0] && insize > 0
    ensures psize == Min(insize, |s|) && q == At(s, psize)
  {
    hide At, NextOf, PrevOf;
    q := p;
    psize := 0;
    var i := 0;
    HeadIs(s);
    while i < insize
      invariant i <= insize && psize == i < |s| && q == s[i]
    {
      psize := psize + 1;
      NextIs(all, out, s, i);
      q := q.next;
      AtIs(s, i + 1);
      if q == null {
        break;
      }
      i := i + 1;
    }
    AtIs(s, psize);
  }

  lemma NextIs(all: seq<Elem>, out: seq<Elem>, s: seq<Elem>, i: nat)
    requires PassingNow(all, out, [], s) && i < |s|
    ensures s[i].next == At(s, i + 1)
  {
    assert s[i] in NextOf(all);
  }

  /** The elements of a run are known by their number. */
  lemma SplitRun(all: seq<Elem>, out: seq<Elem>, s: seq<Elem>, n: nat)
    requires PassingNow(all, out, [], s) && n <= |s|
    ensures PassingNow(all, out, s[..n], s[n..]) && At(s[n..], 0) == At(s, n) && (n > 0 ==> At(s[..n], 0) == At(s, 0))
  {
    assert out + [] + s == out + s[..n] + s[n..];
    assert [] + s == s[..n] + s[n..] == s;
    var next := NextOf(all);
    forall i | 0 <= i < n ensures s[..n][i] in next && (i < n - 1 ==> next[s[..n][i]] == At(s[..n], i + 1)) {
      assert s[i] in next;
    }
    forall i | 0 <= i < |s| - n ensures s[n..][i] in next && next[s[n..][i]] == At(s[n..], i + 1) {
      assert s[n + i] in next;
    }
  }

  /** One pass over the list: how many merges it took tells whether it was the last. */
  method SortPass(ghost all: seq<Elem>, first: Elem, insize: nat, cmp: (Elem, Elem) -> int, ghost s: seq<Elem>)
    returns (list: Elem?, tail: Elem?, nmerges: nat)
    requires PassingNow(all, [], [], s) && s != [] && first == s[0] && insize > 0
    modifies all`prev, all`next
    ensures var r := Pass(s, insize, cmp);
            Distinct(r) && Linked(r, PrevOf(all), NextOf(all)) && list == At(r, 0) && tail == At(r, |r| - 1)
    ensures nmerges <= 1 <==> |s| <= 2 * insize
  {
    hide Passing, Rest, Pass, At, PrevOf, NextOf, Linked;
    ghost var out, rest: seq<Elem> := [], s;
    var p: Elem? := first;
    list, tail, nmerges := null, null, 0;
    HeadIs(s);
    NoneAt();
    while p != null
      invariant PassingNow(all, out, [], rest) && p == At(rest, 0) && list == At(out, 0) && tail == At(out, |out| - 1)
      invariant out + Pass(rest, insize, cmp) == Pass(s, insize, cmp)
      invariant (nmerges == 0 ==> out == []) && (nmerges == 1 ==> |out| <= 2 * insize)
                && (nmerges >= 2 ==> |out| > 2 * insize)
      invariant nmerges >= 1 && rest != [] ==> |out| >= 2 * insize
      decreases |rest|
    {
      HeadIs(rest);
      nmerges := nmerges + 1;
      var psize, q := SkipRun(all, p, insize, out, rest);
      SplitRun(all, out, rest, psize);
      RestStart(rest, insize, cmp);
      ghost var ps, qs := rest[..psize], rest[psize..];
      ghost var was := out;
      q, list, tail, out, rest := MergeRuns(all, p, psize, q, insize, list, tail, cmp, out, ps, qs);
      p := q;
    }
    HeadIs(rest);
    PassNone(insize, cmp);
    assert out + [] == out == Pass(s, insize, cmp);
    LastAt(out);
    EndPass(all, tail, out);
  }

  /** The last next pointer of a pass. */
  method EndPass(ghost all: seq<Elem>, tail: Elem?, ghost out: seq<Elem>)
    requires PassingNow(all, out, [], []) && out != [] && tail == out[|out| - 1]
    modifies all`next
    ensures Distinct(out) && Linked(out, PrevOf(all), NextOf(all))
  {
    EndFacts(all, out);
    if tail != null {
      tail.next := null;
    }
    assert NextOf(all) == old(NextOf(all))[tail := null];
  }

  lemma EndFacts(all: seq<Elem>, out: seq<Elem>)
    requires PassingNow(all, out, [], []) && out != []
    ensures out[|out| - 1] in all && Distinct(out)
    ensures Linked(out, PrevOf(all), NextOf(all)[out[|out| - 1] := null])
  {
    var prev, next := PrevOf(all), NextOf(all);
    assert out + [] + [] == out;
    assert out[|out| - 1] in prev;
    forall i | 0 <= i < |out| - 1 ensures out[i] != out[|out| - 1] {
    }
  }

  lemma NoneAt()
    ensures At([], 0) == null && At([], -1) == null
  {
  }

  lemma PassNone(k: nat, cmp: (Elem, Elem) -> int)
    requires k > 0
    ensures Pass<Elem>([], k, cmp) == []
  {
  }

  lemma LastAt(s: seq<Elem>)
    requires s != []
    ensures At(s, |s| - 1) == s[|s| - 1]
  {
  }

  // ---------- the sort ----------

  /** HASH_SRT: the list is sorted in place, and no bucket is touched. */
  method Sort(h: HashTable, cmp: (Elem, Elem) -> int)
    requires h.Valid()
    modifies h`head, h`tail, h`app, h.app`prev, h.app`next
    ensures h.Valid() && h.Items() == old(h.Items())
    ensures h.app == SortFrom(old(h.app), 1, cmp) && multiset(h.app) == multiset(old(h.app))
    ensures Ordering(SetOf(h.app), cmp) ==>
              SortedBy(h.app, cmp) && forall x :: x in SetOf(h.app) ==>
                Class(h.app, x, cmp) == Class(old(h.app), x, cmp)
  {
    hide HashTable.Valid, HashTable.ListOk, HashTable.BucketsOk, KeysOk, MapOf, Ordering, SortedBy, Class, SortFrom,
         Fits;
    hide Common.Owned, OwnOf, AllReached, Pow2, UtChains.ChainsOk, Distinct, HhPrevOf, HhNextOf, SetOf;
    h.Open();
    if h.head != null {
      BeforeSort(h, cmp);
      SortStable(h.app, cmp);
      SortTo(h, cmp, SortFrom(h.app, 1, cmp));
    } else {
      NoneToSort(cmp);
    }
  }

  /** A list of the same elements, to which the buckets fit as well. */
  ghost predicate Fits(h: HashTable, s: seq<Elem>)
    requires |h.chains| > 0
    reads h`app, h`chains, h`numItems, s`key, s`hashv
  {
    && h.numItems == |s| && s != [] && KeysOk(s, h.hash) && AllReached(s, h.chains)
    && (forall x :: x in s ==> x in h.app)
    && (forall c, i :: 0 <= c < |h.chains| && 0 <= i < |h.chains[c]| ==> h.chains[c][i] in s)
  }

  method SortTo(h: HashTable, cmp: (Elem, Elem) -> int, ghost goal: seq<Elem>)
    requires h.Valid() && h.head != null && goal == SortFrom(h.app, 1, cmp) && |h.chains| > 0 && Fits(h, goal)
    modifies h`head, h`tail, h`app, h.app`prev, h.app`next
    ensures h.Valid() && h.app == goal && h.Items() == old(MapOf(goal))
  {
    hide HashTable.Valid, HashTable.ListOk, HashTable.BucketsOk, KeysOk, AllReached, Pow2, MapOf;
    hide Linked, Distinct, PrevOf, NextOf, HhPrevOf, HhNextOf, OwnOf, Pass, SortFrom, At;
    h.Open();
    ghost var was, s := h.app, h.app;
    StartFacts(h);
    var insize, looping := 1, true;
    var list: Elem? := h.head;
    while looping
      invariant insize > 0 && s != [] && h.app == was
      invariant looping ==> list == s[0] && PassingNow(was, [], [], s) && SortFrom(s, insize, cmp) == goal
      invariant !looping ==>
                  s == goal && Distinct(s) && Linked(s, PrevOf(was), NextOf(was))
                  && h.head == At(s, 0) && h.tail == At(s, |s| - 1)
      decreases looping, if |s| > insize then |s| - insize else 0
    {
      var tail, nmerges;
      list, tail, nmerges := SortPass(was, list, insize, cmp, s);
      SortStep(s, insize, cmp);
      s := Pass(s, insize, cmp);
      HeadIs(s);
      if nmerges <= 1 {
        looping := false;
        h.tail := tail;
        h.head := list;
      } else {
        Restart(was, s);
      }
      insize := insize * 2;
    }
    Resort(h, was, goal);
  }

  /** The elements in their new order. */
  method Resort(h: HashTable, ghost was: seq<Elem>, ghost s: seq<Elem>)
    requires |h.chains| > 0 && Fits(h, s) && h.app == was && Distinct(s) && Linked(s, PrevOf(was), NextOf(was))
    requires h.head == At(s, 0) && h.tail == At(s, |s| - 1) && h.BucketsOk()
    modifies h`app
    ensures h.Valid() && h.app == s
  {
    hide HashTable.Valid, HashTable.ListOk, KeysOk, AllReached, Pow2;
    hide Linked, Distinct, PrevOf, NextOf, HhPrevOf, HhNextOf, OwnOf, At;
    Restrict(was, s);
    h.app := s;
    h.Settled(was);
  }

  lemma SortStep(s: seq<Elem>, k: nat, cmp: (Elem, Elem) -> int)
    requires k > 0
    ensures SortFrom(s, k, cmp) == if |s| <= 2 * k then Pass(s, k, cmp) else SortFrom(Pass(s, k, cmp), 2 * k, cmp)
    ensures |Pass(s, k, cmp)| == |s|
  {
  }

  lemma StartFacts(h: HashTable)
    requires h.ListOk() && h.app != []
    ensures h.head == h.app[0] && PassingNow(h.app, [], [], h.app)
  {
    Restart(h.app, h.app);
  }

  /** A list with both its ends is where a pass starts. */
  lemma Restart(all: seq<Elem>, s: seq<Elem>)
    requires Distinct(s) && Linked(s, PrevOf(all), NextOf(all))
    ensures PassingNow(all, [], [], s)
  {
    assert [] + [] + s == s && [] + s == s;
    forall i | 0 <= i < |s| ensures s[i] in PrevOf(all) && s[i] in NextOf(all) && NextOf(all)[s[i]] == At(s, i + 1) {
      assert s[i] in NextOf(all);
    }
  }

  /** What holds of the sorted list before any link is changed. */
  lemma BeforeSort(h: HashTable, cmp: (Elem, Elem) -> int)
    requires KeysOk(h.app, h.hash) && h.app != [] && h.numItems == |h.app| && |h.chains| > 0
    requires AllReached(h.app, h.chains) && Common.Owned(h.chains, OwnOf(h.app, |h.chains|))
    ensures var s := SortFrom(h.app, 1, cmp); Fits(h, s) && MapOf(s) == MapOf(h.app)
  {
    var s := SortFrom(h.app, 1, cmp);
    SortFromElements(h.app, 1, cmp);
    hide SortFrom, KeysOk, MapOf, AllReached, Common.Owned, OwnOf;
    SameElements(h.app, s);
    SameKeys(h.app, s, h.hash);
    SameReached(h.app, s, h.chains);
  }

  lemma SameReached(s: seq<Elem>, t: seq<Elem>, chains: seq<seq<Elem>>)
    requires |chains| > 0 && AllReached(s, chains) && Common.Owned(chains, OwnOf(s, |chains|))
    requires forall x :: x in s <==> x in t
    ensures AllReached(t, chains) && forall c, i :: 0 <= c < |chains| && 0 <= i < |chains[c]| ==> chains[c][i] in t
  {
    hide Slot;
    forall i | 0 <= i < |t| ensures t[i] in chains[Slot(t[i].hashv, |chains|)] {
      assert t[i] in s;
      var j :| 0 <= j < |s| && s[j] == t[i];
      assert s[j] in chains[Slot(s[j].hashv, |chains|)];
    }
    forall c, i | 0 <= c < |chains| && 0 <= i < |chains[c]| ensures chains[c][i] in t {
      assert chains[c][i] in OwnOf(s, |chains|);
    }
  }

  lemma SortStable(was: seq<Elem>, cmp: (Elem, Elem) -> int)
    ensures var s := SortFrom(was, 1, cmp);
            && multiset(s) == multiset(was)
            && (Ordering(SetOf(s), cmp) ==>
                  SortedBy(s, cmp) && forall x :: x in SetOf(s) ==> Class(s, x, cmp) == Class(was, x, cmp))
  {
    var s := SortFrom(was, 1, cmp);
    SortFromElements(was, 1, cmp);
    SameElements(was, s);
    if Ordering(SetOf(s), cmp) {
      SortIsStable(was, cmp, SetOf(s));
    }
  }

  lemma SameElements(s: seq<Elem>, t: seq<Elem>)
    requires multiset(s) == multiset(t)
    ensures (forall x :: x in s <==> x in t) && SetOf(s) == SetOf(t)
  {
    forall x: Elem ensures x in s <==> x in t {
      assert x in s <==> x in multiset(s);
      assert x in t <==> x in multiset(t);
    }
  }

  /** The same elements, each once, in another order: the same keys and the same map. */
  lemma SameKeys(s: seq<Elem>, t: seq<Elem>, hash: Key -> nat)
    requires KeysOk(s, hash) && multiset(s) == multiset(t)
    ensures KeysOk(t, hash) && MapOf(t) == MapOf(s)
  {
    SameElements(s, t);
    assert KeysOk(t, hash) by {
      hide MapOf;
      forall i | 0 <= i < |t| ensures t[i].hashv == hash(t[i].key) {
        assert t[i] in s;
      }
      forall i, j | 0 <= i < j < |t| ensures t[i].key != t[j].key {
        TwoPlaces(s, t, i, j);
      }
    }
    hide KeysOk, MapOf;
    forall key: Key
      ensures key in MapOf(s) <==> key in MapOf(t)
      ensures key in MapOf(s) ==> MapOf(s)[key] == MapOf(t)[key]
    {
      MapOfHas(s, hash, key);
      MapOfHas(t, hash, key);
      SameNoKey(s, t, key);
    }
  }

  lemma SameNoKey(s: seq<Elem>, t: seq<Elem>, key: Key)
    requires forall x :: x in s <==> x in t
    ensures NoKey(s, key) <==> NoKey(t, key)
    ensures !NoKey(s, key) ==> exists i, j :: 0 <= i < |s| && 0 <= j < |t| && s[i] == t[j] && s[i].key == key
  {
    if i :| 0 <= i < |s| && s[i].key == key {
      assert s[i] in t;
    }
    if i :| 0 <= i < |t| && t[i].key == key {
      assert t[i] in s;
    }
  }

  /** Two places of a permutation hold what two places of the original do. */
  lemma TwoPlaces(s: seq<Elem>, t: seq<Elem>, i: nat, j: nat)
    requires multiset(s) == multiset(t) && i < j < |t|
    requires forall a, b :: 0 <= a < b < |s| ==> s[a].key != s[b].key
    ensures t[i].key != t[j].key
  {
    SameElements(s, t);
    assert t[i] in s && t[j] in s;
    var a :| 0 <= a < |s| && s[a] == t[i];
    var b :| 0 <= b < |s| && s[b] == t[j];
    if a == b {
      Twice(t, i, j);
      Once(s, a);
    }
  }

  lemma Twice(t: seq<Elem>, i: nat, j: nat)
    requires i < j < |t| && t[i] == t[j]
    ensures multiset(t)[t[i]] >= 2
  {
    assert t == t[..i] + [t[i]] + t[i + 1..j] + [t[j]] + t[j + 1..];
  }

  lemma Once(s: seq<Elem>, a: nat)
    requires a < |s| && forall i, j :: 0 <= i < j < |s| ==> s[i].key != s[j].key
    ensures multiset(s)[s[a]] == 1
  {
    assert s == s[..a] + [s[a]] + s[a + 1..];
    assert s[a] !in s[..a] && s[a] !in s[a + 1..];
  }

  lemma NoneToSort(cmp: (Elem, Elem) -> int)
    ensures SortFrom<Elem>([], 1, cmp) == [] && SortedBy<Elem>([], cmp) && SetOf([]) == {}
  {
  }
}
