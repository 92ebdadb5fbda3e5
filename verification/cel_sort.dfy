/** cel_sort.c: the sorts that work in place on an array, for any comparison that orders its elements. */
module CelSort {

  /** A comparison function of C: its sign turns with its arguments, and the order carries over. */
  ghost predicate Comparison<T(!new)>(cmp: (T, T) -> int)
  {
    && (forall x: T, y: T :: cmp(x, y) <= 0 <==> cmp(y, x) >= 0)
    && (forall x: T, y: T, z: T :: cmp(x, y) <= 0 && cmp(y, z) <= 0 ==> cmp(x, z) <= 0)
  }

  /** The elements from `lo` up to `hi` are in order. */
  ghost predicate Sorted<T>(s: seq<T>, lo: int, hi: int, cmp: (T, T) -> int)
    requires 0 <= lo && hi <= |s|
  {
    forall p, q :: lo <= p < q < hi ==> cmp(s[p], s[q]) <= 0
  }

  /** Nothing but the places from `lo` up to `hi` is different, and there it is another order of the same elements. */
  ghost predicate Rearranged<T>(s: seq<T>, t: seq<T>, lo: int, hi: int)
  {
    && |s| == |t| && multiset(s) == multiset(t)
    && forall k :: 0 <= k < |s| && !(lo <= k < hi) ==> s[k] == t[k]
  }

  // ---------- insertion ----------

  /** cel_subinsert_sort */
  method SubInsertSort<T(!new)>(a: array<T>, cmp: (T, T) -> int, start: nat, end: nat)
    requires Comparison(cmp) && start <= end < a.Length
    modifies a
    ensures Sorted(a[..], start, end + 1, cmp) && Rearranged(old(a[..]), a[..], start, end + 1)
  {
    var i := start + 1;
    while i <= end
      invariant start < i <= end + 1
      invariant Sorted(a[..], start, i, cmp) && Rearranged(old(a[..]), a[..], start, end + 1)
    {
      Insert(a, cmp, start, i);
      i := i + 1;
    }
  }

  /** The place `j` is free for `x`: all is in order before it and behind it, and `x` is below all behind it. */
  ghost predicate Opened<T>(s: seq<T>, start: nat, i: nat, j: nat, x: T, cmp: (T, T) -> int)
  {
    && start <= j <= i < |s|
    && (forall p, q :: start <= p < q <= i && p != j && q != j ==> cmp(s[p], s[q]) <= 0)
    && (forall q :: j < q <= i ==> cmp(x, s[q]) < 0)
  }

  /** A free place moves by one copy; what is there once it is filled is the same. */
  lemma HoleMoves<T>(s: seq<T>, j: nat, h: nat, x: T)
    requires h < j < |s|
    ensures multiset(s[j := s[h]][h := x]) == multiset(s[j := x])
  {
    var t := s[j := x];
    assert s[j := s[h]][h := x] == t[j := t[h]][h := t[j]];
  }

  lemma OpenNext<T>(s: seq<T>, start: nat, i: nat, j: nat, x: T, cmp: (T, T) -> int)
    requires Opened(s, start, i, j, x, cmp) && start < j && cmp(x, s[j - 1]) < 0
    ensures Opened(s[j := s[j - 1]], start, i, j - 1, x, cmp)
  {
  }

  lemma Close<T(!new)>(s: seq<T>, start: nat, i: nat, j: nat, x: T, cmp: (T, T) -> int)
    requires Comparison(cmp) && Opened(s, start, i, j, x, cmp) && (j == start || cmp(x, s[j - 1]) >= 0)
    ensures Sorted(s[j := x], start, i + 1, cmp)
  {
    var t := s[j := x];
    forall p, q | start <= p < q < i + 1 ensures cmp(t[p], t[q]) <= 0 {
      if q == j {
        assert p == j - 1 || cmp(s[p], s[j - 1]) <= 0;
        assert cmp(s[j - 1], x) <= 0;
      }
    }
  }

  /** The body of its loop: the element at `i` goes to its place among those before it. */
  method Insert<T(!new)>(a: array<T>, cmp: (T, T) -> int, start: nat, i: nat)
    requires Comparison(cmp) && start < i < a.Length && Sorted(a[..], start, i, cmp)
    modifies a
    ensures Sorted(a[..], start, i + 1, cmp) && Rearranged(old(a[..]), a[..], start, i + 1)
  {
    hide Comparison, Sorted, Opened, Shifted, Rearranged;
    ghost var was := a[..];
    var tmp := a[i];
    var j := i;
    OpenFirst(was, start, i, cmp);
    while j > start && cmp(tmp, a[j - 1]) < 0
      invariant start <= j <= i && Opened(a[..], start, i, j, tmp, cmp) && Shifted(was, a[..], start, i, j, tmp)
    {
      OpenNext(a[..], start, i, j, tmp, cmp);
      ShiftedNext(was, a[..], start, i, j, tmp);
      ghost var s := a[..];
      a[j] := a[j - 1];
      assert a[..] == s[j := s[j - 1]];
      j := j - 1;
    }
    Close(a[..], start, i, j, tmp, cmp);
    ShiftedClose(was, a[..], start, i, j, tmp);
    ghost var s := a[..];
    if j < i {
      a[j] := tmp;
    }
    assert a[..] == s[j := tmp];
  }

  /** The elements so far, with `x` at the free place, are the old ones. */
  ghost predicate Shifted<T>(was: seq<T>, s: seq<T>, start: nat, i: nat, j: nat, x: T)
  {
    && start <= j <= i < |s| == |was| && multiset(s[j := x]) == multiset(was) && (j == i ==> s == s[j := x])
    && forall k :: 0 <= k < |was| && !(start <= k <= i) ==> s[k] == was[k]
  }

  lemma ShiftedNext<T>(was: seq<T>, s: seq<T>, start: nat, i: nat, j: nat, x: T)
    requires Shifted(was, s, start, i, j, x) && start < j
    ensures Shifted(was, s[j := s[j - 1]], start, i, j - 1, x)
  {
    HoleMoves(s, j, j - 1, x);
  }

  lemma ShiftedClose<T>(was: seq<T>, s: seq<T>, start: nat, i: nat, j: nat, x: T)
    requires Shifted(was, s, start, i, j, x)
    ensures Rearranged(was, s[j := x], start, i + 1) && (j == i ==> s == s[j := x])
  {
  }

  lemma OpenFirst<T>(s: seq<T>, start: nat, i: nat, cmp: (T, T) -> int)
    requires start < i < |s| && Sorted(s, start, i, cmp)
    ensures Opened(s, start, i, i, s[i], cmp) && Shifted(s, s, start, i, i, s[i])
  {
    assert s[i := s[i]] == s;
  }

  // ---------- merging ----------

  /** Two lists into one; of equal elements those of the second list go first. */
  function Merge<T>(x: seq<T>, y: seq<T>, cmp: (T, T) -> int): (m: seq<T>)
    ensures |m| == |x| + |y|
  {
    if x == [] then y
    else if y == [] then x
    else if cmp(x[0], y[0]) < 0 then [x[0]] + Merge(x[1..], y, cmp)
    else [y[0]] + Merge(x, y[1..], cmp)
  }

  lemma HeadElements<T>(h: T, t: seq<T>)
    ensures multiset([h] + t) == multiset{h} + multiset(t)
  {
  }

  lemma {:induction false} MergeElements<T>(x: seq<T>, y: seq<T>, cmp: (T, T) -> int)
    ensures multiset(Merge(x, y, cmp)) == multiset(x) + multiset(y)
  {
    if x != [] && y != [] {
      if cmp(x[0], y[0]) < 0 {
        MergeElements(x[1..], y, cmp);
        assert Merge(x, y, cmp) == [x[0]] + Merge(x[1..], y, cmp);
        hide *;
        FirstElement(x, y, Merge(x[1..], y, cmp));
      } else {
        MergeElements(x, y[1..], cmp);
        assert Merge(x, y, cmp) == [y[0]] + Merge(x, y[1..], cmp);
        hide *;
        FirstElement(y, x, Merge(x, y[1..], cmp));
      }
    }
  }

  lemma FirstElement<T>(s: seq<T>, t: seq<T>, m: seq<T>)
    requires s != [] && multiset(m) == multiset(s[1..]) + multiset(t)
    ensures multiset([s[0]] + m) == multiset(s) + multiset(t)
  {
    HeadElements(s[0], m);
    HeadElements(s[0], s[1..]);
    assert s == [s[0]] + s[1..];
  }

  lemma {:induction false} MergeAbove<T>(x: seq<T>, y: seq<T>, cmp: (T, T) -> int, v: T)
    requires forall i :: 0 <= i < |x| ==> cmp(v, x[i]) <= 0
    requires forall i :: 0 <= i < |y| ==> cmp(v, y[i]) <= 0
    ensures forall i :: 0 <= i < |Merge(x, y, cmp)| ==> cmp(v, Merge(x, y, cmp)[i]) <= 0
  {
    if x != [] && y != [] {
      if cmp(x[0], y[0]) < 0 {
        MergeAbove(x[1..], y, cmp, v);
      } else {
        MergeAbove(x, y[1..], cmp, v);
      }
    }
  }

  predicate InOrder<T>(s: seq<T>, cmp: (T, T) -> int) { forall p, q :: 0 <= p < q < |s| ==> cmp(s[p], s[q]) <= 0 }

  lemma {:induction false} MergeInOrder<T(!new)>(x: seq<T>, y: seq<T>, cmp: (T, T) -> int)
    requires Comparison(cmp) && InOrder(x, cmp) && InOrder(y, cmp)
    ensures InOrder(Merge(x, y, cmp), cmp)
  {
    if x != [] && y != [] {
      if cmp(x[0], y[0]) < 0 {
        FirstBelow(x[0], y, cmp);
        MergeInOrder(x[1..], y, cmp);
        MergeAbove(x[1..], y, cmp, x[0]);
      } else {
        assert cmp(y[0], x[0]) <= 0;
        FirstBelow(y[0], x, cmp);
        MergeInOrder(x, y[1..], cmp);
        MergeAbove(x, y[1..], cmp, y[0]);
      }
    }
  }

  lemma FirstBelow<T(!new)>(v: T, y: seq<T>, cmp: (T, T) -> int)
    requires Comparison(cmp) && y != [] && InOrder(y, cmp) && cmp(v, y[0]) <= 0
    ensures forall i :: 0 <= i < |y| ==> cmp(v, y[i]) <= 0
  {
    forall i | 0 <= i < |y| ensures cmp(v, y[i]) <= 0 {
      assert i > 0 ==> cmp(y[0], y[i]) <= 0;
    }
  }

  lemma MergeLeft<T>(x: seq<T>, y: seq<T>, cmp: (T, T) -> int)
    requires x != [] && (y == [] || cmp(x[0], y[0]) < 0)
    ensures Merge(x, y, cmp) == [x[0]] + Merge(x[1..], y, cmp)
  {
    if y == [] {
      assert x == [x[0]] + x[1..];
      assert Merge(x[1..], y, cmp) == x[1..];
    }
  }

  lemma MergeRight<T>(x: seq<T>, y: seq<T>, cmp: (T, T) -> int)
    requires y != [] && (x == [] || cmp(x[0], y[0]) >= 0)
    ensures Merge(x, y, cmp) == [y[0]] + Merge(x, y[1..], cmp)
  {
    if x == [] {
      MergeNone(y, cmp);
      MergeNone(y[1..], cmp);
      hide Merge;
      assert y == [y[0]] + y[1..];
    }
  }

  lemma MergeNone<T>(y: seq<T>, cmp: (T, T) -> int)
    ensures Merge([], y, cmp) == y
  {
  }

  /** What is put out so far, and the merge of what is left, make up `m`. */
  ghost predicate Filling<T>(m: seq<T>, t: seq<T>, l0: nat, p: nat, x: seq<T>, y: seq<T>, cmp: (T, T) -> int)
  {
    l0 <= p && p + |x| + |y| <= |t| && t[l0..p] + Merge(x, y, cmp) == m
  }

  lemma FillLeft<T>(m: seq<T>, t: seq<T>, l0: nat, p: nat, x: seq<T>, y: seq<T>, cmp: (T, T) -> int)
    requires Filling(m, t, l0, p, x, y, cmp) && x != [] && (y == [] || cmp(x[0], y[0]) < 0)
    ensures Filling(m, t[p := x[0]], l0, p + 1, x[1..], y, cmp)
  {
    hide Merge;
    MergeLeft(x, y, cmp);
    var rest := Merge(x[1..], y, cmp);
    assert t[l0..p] + ([x[0]] + rest) == t[p := x[0]][l0..p + 1] + rest;
  }

  lemma FillRight<T>(m: seq<T>, t: seq<T>, l0: nat, p: nat, x: seq<T>, y: seq<T>, cmp: (T, T) -> int)
    requires Filling(m, t, l0, p, x, y, cmp) && y != [] && (x == [] || cmp(x[0], y[0]) >= 0)
    ensures Filling(m, t[p := y[0]], l0, p + 1, x, y[1..], cmp)
  {
    hide Merge;
    MergeRight(x, y, cmp);
    var rest := Merge(x, y[1..], cmp);
    assert t[l0..p] + ([y[0]] + rest) == t[p := y[0]][l0..p + 1] + rest;
  }

  lemma FillFirst<T>(t: seq<T>, l0: nat, x: seq<T>, y: seq<T>, cmp: (T, T) -> int)
    requires l0 + |x| + |y| <= |t|
    ensures Filling(Merge(x, y, cmp), t, l0, l0, x, y, cmp)
  {
    assert t[l0..l0] + Merge(x, y, cmp) == Merge(x, y, cmp);
  }

  lemma FillLast<T>(m: seq<T>, t: seq<T>, l0: nat, p: nat, cmp: (T, T) -> int)
    requires Filling(m, t, l0, p, [], [], cmp)
    ensures t[l0..p] == m
  {
  }

  /** The three loops of merge that fill `tmp`. */
  method Fill<T>(a: array<T>, tmp: array<T>, cmp: (T, T) -> int, l0: nat, r0: nat, rend: nat)
    requires l0 < r0 <= rend < a.Length == tmp.Length && a != tmp
    modifies tmp
    ensures tmp[l0..rend + 1] == Merge(a[l0..r0], a[r0..rend + 1], cmp)
  {
    hide Merge, Filling;
    ghost var m := Merge(a[l0..r0], a[r0..rend + 1], cmp);
    var lend, p, l, r := r0 - 1, l0, l0, r0;
    FillFirst(tmp[..], l0, a[l0..r0], a[r0..rend + 1], cmp);
    while l <= lend && r <= rend
      invariant l0 <= l <= r0 <= r <= rend + 1 && p == l + r - r0
      invariant Filling(m, tmp[..], l0, p, a[l..r0], a[r..rend + 1], cmp)
    {
      ghost var t := tmp[..];
      if cmp(a[l], a[r]) < 0 {
        FillLeft(m, t, l0, p, a[l..r0], a[r..rend + 1], cmp);
        assert a[l..r0][1..] == a[l + 1..r0];
        tmp[p] := a[l];
        assert tmp[..] == t[p := a[l]];
        l := l + 1;
      } else {
        FillRight(m, t, l0, p, a[l..r0], a[r..rend + 1], cmp);
        assert a[r..rend + 1][1..] == a[r + 1..rend + 1];
        tmp[p] := a[r];
        assert tmp[..] == t[p := a[r]];
        r := r + 1;
      }
      p := p + 1;
    }
    while l <= lend
      invariant l0 <= l <= r0 <= r <= rend + 1 && p == l + r - r0 && (l <= lend ==> r > rend)
      invariant Filling(m, tmp[..], l0, p, a[l..r0], a[r..rend + 1], cmp)
    {
      ghost var t := tmp[..];
      FillLeft(m, t, l0, p, a[l..r0], a[r..rend + 1], cmp);
      assert a[l..r0][1..] == a[l + 1..r0];
      tmp[p] := a[l];
      assert tmp[..] == t[p := a[l]];
      l := l + 1;
      p := p + 1;
    }
    while r <= rend
      invariant l == r0 <= r <= rend + 1 && p == r
      invariant Filling(m, tmp[..], l0, p, a[l..r0], a[r..rend + 1], cmp)
    {
      ghost var t := tmp[..];
      FillRight(m, t, l0, p, a[l..r0], a[r..rend + 1], cmp);
      assert a[r..rend + 1][1..] == a[r + 1..rend + 1];
      tmp[p] := a[r];
      assert tmp[..] == t[p := a[r]];
      r := r + 1;
      p := p + 1;
    }
    assert a[l..r0] == [] && a[r..rend + 1] == [];
    FillLast(m, tmp[..], l0, p, cmp);
    assert tmp[..][l0..p] == tmp[l0..rend + 1];
  }

  /** merge: the two runs are merged into `tmp`, and the result is copied back. */
  method MergeRuns<T>(a: array<T>, tmp: array<T>, cmp: (T, T) -> int, l: nat, r: nat, rend: nat)
    requires l < r <= rend < a.Length == tmp.Length && a != tmp
    modifies a, tmp
    ensures a[..] == old(a[..l]) + Merge(old(a[l..r]), old(a[r..rend + 1]), cmp) + old(a[rend + 1..])
  {
    hide Merge;
    ghost var m := Merge(a[l..r], a[r..rend + 1], cmp);
    Fill(a, tmp, cmp, l, r, rend);
    var ptmp := l;
    while ptmp <= rend
      invariant l <= ptmp <= rend + 1 && tmp[l..rend + 1] == m
      invariant forall k :: 0 <= k < a.Length ==> a[k] == if l <= k < ptmp then m[k - l] else old(a[k])
    {
      assert tmp[ptmp] == tmp[l..rend + 1][ptmp - l];
      a[ptmp] := tmp[ptmp];
      ptmp := ptmp + 1;
    }
  }

  // ---------- merge sort ----------

  /** Blocks of `k` elements are in order each, and so is a shorter one at the end. */
  ghost predicate Runs<T>(s: seq<T>, k: nat, cmp: (T, T) -> int)
    requires k > 0
    decreases |s|
  {
    if |s| <= k then InOrder(s, cmp) else InOrder(s[..k], cmp) && Runs(s[k..], k, cmp)
  }

  /** Nothing but blocks of `k` elements, each in order. */
  ghost predicate FullRuns<T>(s: seq<T>, k: nat, cmp: (T, T) -> int)
    requires k > 0
    decreases |s|
  {
    s == [] || (|s| >= k && InOrder(s[..k], cmp) && FullRuns(s[k..], k, cmp))
  }

  lemma {:induction false} FullThen<T>(x: seq<T>, y: seq<T>, k: nat, cmp: (T, T) -> int)
    requires k > 0 && FullRuns(x, k, cmp)
    ensures Runs(y, k, cmp) ==> Runs(x + y, k, cmp)
    ensures FullRuns(y, k, cmp) ==> FullRuns(x + y, k, cmp)
    decreases |x|
  {
    if x == [] {
      assert x + y == y;
    } else {
      FullThen(x[k..], y, k, cmp);
      assert (x + y)[..k] == x[..k] && (x + y)[k..] == x[k..] + y;
      if |x + y| == k {
        assert x + y == x[..k] && y == [];
      }
    }
  }

  /** The first two blocks, and the rest. */
  lemma RunsSplit<T>(s: seq<T>, k: nat, cmp: (T, T) -> int)
    requires k > 0 && Runs(s, k, cmp) && |s| > k
    ensures InOrder(s[..k], cmp)
    ensures |s| >= 2 * k ==> InOrder(s[k..2 * k], cmp) && Runs(s[2 * k..], k, cmp)
    ensures |s| <= 2 * k ==> InOrder(s[k..], cmp)
  {
    hide InOrder;
    var t := s[k..];
    if |t| > k {
      assert t[..k] == s[k..2 * k] && t[k..] == s[2 * k..];
    } else if |t| == k {
      assert t == s[k..2 * k];
      NoneInOrder(s[2 * k..], k, cmp);
    }
  }

  lemma NoneInOrder<T>(s: seq<T>, k: nat, cmp: (T, T) -> int)
    requires k > 0 && s == []
    ensures Runs(s, k, cmp)
  {
  }

  /** The array with two neighbouring runs merged. */
  function Merged<T>(s: seq<T>, l: nat, r: nat, end: nat, cmp: (T, T) -> int): (t: seq<T>)
    requires l <= r <= end <= |s|
    ensures |t| == |s|
  {
    s[..l] + Merge(s[l..r], s[r..end], cmp) + s[end..]
  }

  lemma MergedElements<T>(s: seq<T>, l: nat, r: nat, end: nat, cmp: (T, T) -> int)
    requires l <= r <= end <= |s|
    ensures multiset(Merged(s, l, r, end, cmp)) == multiset(s)
  {
    hide Merge;
    MergeElements(s[l..r], s[r..end], cmp);
    assert s == s[..l] + s[l..r] + s[r..end] + s[end..];
  }

  /** One merge of a pass: the blocks before it are twice as long, those behind it are as they were. */
  lemma PassStep<T(!new)>(s: seq<T>, i: nat, k: nat, cmp: (T, T) -> int)
    requires Comparison(cmp) && k > 0 && i + 2 * k <= |s| && FullRuns(s[..i], 2 * k, cmp) && Runs(s[i..], k, cmp)
    ensures var t := Merged(s, i, i + k, i + 2 * k, cmp);
            FullRuns(t[..i + 2 * k], 2 * k, cmp) && Runs(t[i + 2 * k..], k, cmp)
  {
    hide Merge, Comparison, InOrder;
    RunsSplit(s[i..], k, cmp);
    var x, y := s[i..i + k], s[i + k..i + 2 * k];
    assert s[i..][..k] == x && s[i..][k..2 * k] == y && s[i..][2 * k..] == s[i + 2 * k..];
    MergeInOrder(x, y, cmp);
    var m := Merge(x, y, cmp);
    var t := Merged(s, i, i + k, i + 2 * k, cmp);
    assert t[..i + 2 * k] == s[..i] + m && t[i + 2 * k..] == s[i + 2 * k..];
    assert m[..2 * k] == m && m[2 * k..] == [];
    NoFullRuns(m[2 * k..], 2 * k, cmp);
    assert FullRuns(m, 2 * k, cmp);
    FullThen(s[..i], m, 2 * k, cmp);
  }

  /** The end of a pass: what is left is merged if it has more than one block. */
  lemma PassEnd<T(!new)>(s: seq<T>, i: nat, k: nat, cmp: (T, T) -> int)
    requires Comparison(cmp) && k > 0 && i <= |s| < i + 2 * k && FullRuns(s[..i], 2 * k, cmp) && Runs(s[i..], k, cmp)
    ensures Runs(if i + k < |s| then Merged(s, i, i + k, |s|, cmp) else s, 2 * k, cmp)
  {
    hide Merge, Comparison, InOrder;
    if i + k < |s| {
      RunsSplit(s[i..], k, cmp);
      var x, y := s[i..i + k], s[i + k..];
      assert s[i..][..k] == x && s[i..][k..] == y && s[i + k..|s|] == y;
      MergeInOrder(x, y, cmp);
      assert Merged(s, i, i + k, |s|, cmp) == s[..i] + Merge(x, y, cmp);
      FullThen(s[..i], Merge(x, y, cmp), 2 * k, cmp);
    } else {
      FullThen(s[..i], s[i..], 2 * k, cmp);
      assert s == s[..i] + s[i..];
    }
  }

  lemma {:induction false} RunsOfOne<T>(s: seq<T>, cmp: (T, T) -> int)
    ensures Runs(s, 1, cmp)
  {
    if |s| > 1 {
      RunsOfOne(s[1..], cmp);
    }
  }

  /** One pass of cel_merge_sort. */
  method MergePass<T(!new)>(a: array<T>, tmp: array<T>, cmp: (T, T) -> int, offset: nat)
    requires Comparison(cmp) && 2 <= offset <= a.Length == tmp.Length && a != tmp && offset % 2 == 0
    requires Runs(a[..], offset / 2, cmp)
    modifies a, tmp
    ensures Runs(a[..], offset, cmp) && multiset(a[..]) == multiset(old(a[..]))
  {
    hide Runs, FullRuns, Comparison, Merge, Merged;
    var k := offset / 2;
    var len := a.Length / offset;
    var j, i := 0, 0;
    assert a[..0] == [] && a[0..] == a[..];
    NoFullRuns(a[..0], 2 * k, cmp);
    while j < len
      invariant j <= len && i == j * offset && i <= a.Length
      invariant FullRuns(a[..i], 2 * k, cmp) && Runs(a[i..], k, cmp)
      invariant multiset(a[..]) == multiset(old(a[..]))
    {
      BlockFits(a.Length, offset, j);
      PassStep(a[..], i, k, cmp);
      assert a[..][..i] == a[..i] && a[..][i..] == a[i..];
      MergeStep(a, tmp, cmp, i, i + k, i + offset);
      i := i + offset;
      j := j + 1;
      assert a[..][..i] == a[..i] && a[..][i..] == a[i..];
    }
    LastBlock(a.Length, offset);
    assert a[..][..i] == a[..i] && a[..][i..] == a[i..];
    PassEnd(a[..], i, k, cmp);
    if i + k <= a.Length - 1 {
      MergeStep(a, tmp, cmp, i, i + k, a.Length);
    }
  }

  lemma NoFullRuns<T>(s: seq<T>, k: nat, cmp: (T, T) -> int)
    requires k > 0 && s == []
    ensures FullRuns(s, k, cmp)
  {
  }

  lemma BlockFits(n: nat, offset: nat, j: nat)
    requires offset > 0 && j < n / offset
    ensures j * offset + offset <= n && (j + 1) * offset == j * offset + offset
  {
    assert (j + 1) * offset <= n / offset * offset;
  }

  lemma LastBlock(n: nat, offset: nat)
    requires offset > 0
    ensures n / offset * offset <= n < n / offset * offset + offset
  {
  }

  method MergeStep<T>(a: array<T>, tmp: array<T>, cmp: (T, T) -> int, l: nat, r: nat, end: nat)
    requires l < r < end <= a.Length == tmp.Length && a != tmp
    modifies a, tmp
    ensures a[..] == Merged(old(a[..]), l, r, end, cmp) && multiset(a[..]) == multiset(old(a[..]))
  {
    MergedElements(a[..], l, r, end, cmp);
    ghost var s := a[..];
    MergeRuns(a, tmp, cmp, l, r, end - 1);
    assert s[l..r] == old(a[l..r]) && s[r..end] == old(a[r..end]) && s[..l] == old(a[..l]) && s[end..] == old(a[end..]);
  }

  /** cel_merge_sort */
  method MergeSort<T(!new, 0)>(a: array<T>, cmp: (T, T) -> int)
    requires Comparison(cmp)
    modifies a
    ensures InOrder(a[..], cmp) && multiset(a[..]) == multiset(old(a[..]))
  {
    hide Comparison, Runs, Merge, Merged;
    var tmp := new T[a.Length];
    var offset := 2;
    RunsOfOne(a[..], cmp);
    while offset <= a.Length
      invariant offset >= 2 && offset % 2 == 0 && offset / 2 <= a.Length + 1 && Runs(a[..], offset / 2, cmp)
      invariant multiset(a[..]) == multiset(old(a[..]))
      decreases a.Length - offset
    {
      MergePass(a, tmp, cmp, offset);
      offset := offset + offset;
    }
    offset := offset / 2;
    TwoRuns(a[..], offset, cmp);
    if offset < a.Length {
      MergeStep(a, tmp, cmp, 0, offset, a.Length);
    }
  }

  /** Two blocks are merged at last. */
  lemma TwoRuns<T(!new)>(s: seq<T>, k: nat, cmp: (T, T) -> int)
    requires Comparison(cmp) && k > 0 && |s| < 2 * k && Runs(s, k, cmp)
    ensures InOrder(if k < |s| then Merged(s, 0, k, |s|, cmp) else s, cmp)
  {
    hide Merge, Comparison;
    if k < |s| {
      RunsSplit(s, k, cmp);
      assert s[0..k] == s[..k] && s[k..|s|] == s[k..];
      MergeInOrder(s[..k], s[k..], cmp);
      assert Merged(s, 0, k, |s|, cmp) == Merge(s[..k], s[k..], cmp);
    }
  }

  // ---------- quicksort ----------

  ghost predicate AllBelow<T>(s: seq<T>, lo: int, hi: int, p: T, cmp: (T, T) -> int)
    requires 0 <= lo && hi <= |s|
  {
    forall k :: lo <= k < hi ==> cmp(s[k], p) <= 0
  }

  ghost predicate AllAbove<T>(s: seq<T>, lo: int, hi: int, p: T, cmp: (T, T) -> int)
    requires 0 <= lo && hi <= |s|
  {
    forall k :: lo <= k < hi ==> cmp(p, s[k]) <= 0
  }

  /** Another order within a range has the same elements there. */
  lemma RangeElements<T>(s: seq<T>, t: seq<T>, lo: nat, hi: nat)
    requires Rearranged(s, t, lo, hi) && lo <= hi <= |s|
    ensures multiset(s[lo..hi]) == multiset(t[lo..hi])
  {
    assert s == s[..lo] + s[lo..hi] + s[hi..] && t == t[..lo] + t[lo..hi] + t[hi..];
    assert s[..lo] == t[..lo] && s[hi..] == t[hi..];
    assert multiset(s) == multiset(s[..lo]) + multiset(s[lo..hi]) + multiset(s[hi..]);
    assert multiset(t) == multiset(t[..lo]) + multiset(t[lo..hi]) + multiset(t[hi..]);
    Cancel(multiset(s[..lo]), multiset(s[lo..hi]), multiset(t[lo..hi]), multiset(s[hi..]));
  }

  lemma Cancel<T>(a: multiset<T>, x: multiset<T>, y: multiset<T>, b: multiset<T>)
    requires a + x + b == a + y + b
    ensures x == y
  {
    forall e: T ensures x[e] == y[e] {
      assert (a + x + b)[e] == a[e] + x[e] + b[e] && (a + y + b)[e] == a[e] + y[e] + b[e];
    }
  }

  lemma BoundsKept<T>(s: seq<T>, t: seq<T>, lo: nat, hi: nat, p: T, cmp: (T, T) -> int)
    requires Rearranged(s, t, lo, hi) && lo <= hi <= |s|
    ensures AllBelow(s, lo, hi, p, cmp) ==> AllBelow(t, lo, hi, p, cmp)
    ensures AllAbove(s, lo, hi, p, cmp) ==> AllAbove(t, lo, hi, p, cmp)
  {
    RangeElements(s, t, lo, hi);
    forall k | lo <= k < hi ensures exists j :: lo <= j < hi && s[j] == t[k] {
      assert t[lo..hi][k - lo] in multiset(t[lo..hi]);
      assert t[k] in multiset(s[lo..hi]);
      var j :| 0 <= j < hi - lo && s[lo..hi][j] == t[k];
      assert s[lo + j] == t[k];
    }
  }

  /** Two ranges in order, with an element between them in value, are in order together. */
  lemma JoinSorted<T(!new)>(s: seq<T>, lo: nat, mid: nat, hi: nat, p: T, cmp: (T, T) -> int)
    requires Comparison(cmp) && lo <= mid <= hi <= |s| && Sorted(s, lo, mid, cmp) && Sorted(s, mid, hi, cmp)
    requires AllBelow(s, lo, mid, p, cmp) && AllAbove(s, mid, hi, p, cmp)
    ensures Sorted(s, lo, hi, cmp)
  {
    forall x, y | lo <= x < y < hi ensures cmp(s[x], s[y]) <= 0 {
      if x < mid <= y {
        assert cmp(s[x], p) <= 0 && cmp(p, s[y]) <= 0;
      }
    }
  }

  lemma RearrangedTwice<T>(s: seq<T>, t: seq<T>, u: seq<T>, lo: int, hi: int, lo2: int, hi2: int)
    requires Rearranged(s, t, lo, hi) && Rearranged(t, u, lo2, hi2) && lo <= lo2 && hi2 <= hi
    ensures Rearranged(s, u, lo, hi)
  {
  }

  /** cel_mem_swap */
  method Swap<T>(a: array<T>, i: nat, j: nat, ghost lo: nat, ghost hi: nat)
    requires lo <= i < hi <= a.Length && lo <= j < hi
    modifies a
    ensures a[..] == old(a[..])[i := old(a[j])][j := old(a[i])] && Rearranged(old(a[..]), a[..], lo, hi)
  {
    a[i], a[j] := a[j], a[i];
  }

  /** Two elements in order. */
  method Order<T(!new)>(a: array<T>, cmp: (T, T) -> int, i: nat, j: nat, ghost lo: nat, ghost hi: nat)
    requires Comparison(cmp) && lo <= i < j < hi <= a.Length
    modifies a
    ensures Rearranged(old(a[..]), a[..], lo, hi)
    ensures (a[i], a[j]) == if cmp(old(a[i]), old(a[j])) > 0 then (old(a[j]), old(a[i])) else (old(a[i]), old(a[j]))
    ensures forall k :: 0 <= k < a.Length && k != i && k != j ==> a[k] == old(a[k])
    ensures cmp(a[i], a[j]) <= 0
  {
    if cmp(a[i], a[j]) > 0 {
      Swap(a, i, j, lo, hi);
    }
  }

  /** median3: the pivot goes beside the right end, with no larger element at the left end and no smaller at the
      right. */
  method Median3<T(!new)>(a: array<T>, cmp: (T, T) -> int, left: nat, right: nat)
    requires Comparison(cmp) && left + 11 <= right < a.Length
    modifies a
    ensures Rearranged(old(a[..]), a[..], left, right + 1)
    ensures cmp(a[left], a[right - 1]) <= 0 && cmp(a[right - 1], a[right]) <= 0
  {
    hide Comparison, Rearranged;
    ghost var s0 := a[..];
    var center := (left + right) / 2;
    OrderThree(a, cmp, left, center, right);
    ghost var s3 := a[..];
    Swap(a, center, right - 1, left, right + 1);
    RearrangedTwice(s0, s3, a[..], left, right + 1, left, right + 1);
  }

  /** The three comparisons of median3. */
  method OrderThree<T(!new)>(a: array<T>, cmp: (T, T) -> int, left: nat, center: nat, right: nat)
    requires Comparison(cmp) && left < center < right < a.Length
    modifies a
    ensures Rearranged(old(a[..]), a[..], left, right + 1)
    ensures cmp(a[left], a[center]) <= 0 && cmp(a[center], a[right]) <= 0
  {
    hide Comparison, Rearranged;
    ghost var s0 := a[..];
    Order(a, cmp, left, center, left, right + 1);
    ghost var s1, x, y, z := a[..], a[left], a[center], a[right];
    Order(a, cmp, left, right, left, right + 1);
    ghost var s2, x', z' := a[..], a[left], a[right];
    LeastOfThree(x, y, z, cmp);
    Order(a, cmp, center, right, left, right + 1);
    RearrangedTwice(s0, s1, s2, left, right + 1, left, right + 1);
    RearrangedTwice(s0, s2, a[..], left, right + 1, left, right + 1);
  }

  /** With the smaller of `x` and `z` in front, it is also not above `y`. */
  lemma LeastOfThree<T(!new)>(x: T, y: T, z: T, cmp: (T, T) -> int)
    requires Comparison(cmp) && cmp(x, y) <= 0
    ensures cmp(x, z) > 0 ==> cmp(z, x) <= 0 && cmp(z, y) <= 0
  {
  }

  /**
   * The partition of quicksort. Neither scan tests its index: the left end and the pivot stop them,
   * and later the elements already exchanged.
   */
  method Partition<T(!new)>(a: array<T>, cmp: (T, T) -> int, left: nat, right: nat) returns (i: nat)
    requires Comparison(cmp) && left + 11 <= right < a.Length
    requires cmp(a[left], a[right - 1]) <= 0 && cmp(a[right - 1], a[right]) <= 0
    modifies a
    ensures left < i < right && Rearranged(old(a[..]), a[..], left, right + 1)
    ensures AllBelow(a[..], left, i, a[i], cmp) && AllAbove(a[..], i, right + 1, a[i], cmp)
  {
    hide Comparison, Rearranged, AllBelow, AllAbove;
    ghost var was := a[..];
    var pivot := a[right - 1];
    var j := right - 1;
    i := left;
    FirstBounds(was, left, right, cmp);
    while true
      invariant left <= i < j < right && a[right - 1] == pivot && Rearranged(was, a[..], left, right + 1)
      invariant AllBelow(a[..], left, i + 1, pivot, cmp) && AllAbove(a[..], j, right + 1, pivot, cmp)
      decreases j - i
    {
      i := ScanUp(a, cmp, left, right, i, j, pivot);
      j := ScanDown(a, cmp, left, right, i, j, pivot);
      if i < j {
        ghost var s := a[..];
        Exchange(a, cmp, left, right, i, j, pivot);
        RearrangedTwice(was, s, a[..], left, right + 1, left, right + 1);
      } else {
        break;
      }
    }
    ghost var s := a[..];
    PlacePivot(a, cmp, left, right, i, j);
    RearrangedTwice(was, s, a[..], left, right + 1, left, right + 1);
  }

  /** The exchange in the loop. */
  method Exchange<T(!new)>(a: array<T>, ghost cmp: (T, T) -> int, ghost left: nat, ghost right: nat, i: nat, j: nat,
                           ghost pivot: T)
    requires Comparison(cmp) && left < i < j < right - 1 < a.Length - 1 && cmp(a[i], pivot) >= 0
             && cmp(a[j], pivot) <= 0
    requires AllBelow(a[..], left, i, pivot, cmp) && AllAbove(a[..], j + 1, right + 1, pivot, cmp)
    modifies a
    ensures Rearranged(old(a[..]), a[..], left, right + 1) && a[right - 1] == old(a[right - 1])
    ensures AllBelow(a[..], left, i + 1, pivot, cmp) && AllAbove(a[..], j, right + 1, pivot, cmp)
  {
    hide Comparison, Rearranged, AllBelow, AllAbove;
    SwapBounds(a[..], left, i, j, right, pivot, cmp);
    Swap(a, i, j, left, right + 1);
  }

  /** The exchange after the loop. */
  method PlacePivot<T(!new)>(a: array<T>, ghost cmp: (T, T) -> int, ghost left: nat, right: nat, i: nat, ghost j: nat)
    requires Comparison(cmp) && left <= i < right < a.Length && j <= i && cmp(a[i], a[right - 1]) >= 0
    requires AllBelow(a[..], left, i, a[right - 1], cmp) && AllAbove(a[..], j + 1, right + 1, a[right - 1], cmp)
    modifies a
    ensures Rearranged(old(a[..]), a[..], left, right + 1)
    ensures AllBelow(a[..], left, i, a[i], cmp) && AllAbove(a[..], i, right + 1, a[i], cmp)
  {
    hide Comparison, Rearranged, AllBelow, AllAbove;
    LastBounds(a[..], left, i, j, right, cmp);
    Swap(a, i, right - 1, left, right + 1);
  }

  lemma FirstBounds<T(!new)>(s: seq<T>, left: nat, right: nat, cmp: (T, T) -> int)
    requires Comparison(cmp) && left + 11 <= right < |s|
    requires cmp(s[left], s[right - 1]) <= 0 && cmp(s[right - 1], s[right]) <= 0
    ensures AllBelow(s, left, left + 1, s[right - 1], cmp) && AllAbove(s, right - 1, right + 1, s[right - 1], cmp)
    ensures Rearranged(s, s, left, right + 1)
  {
  }

  /** An exchange of two elements that stopped the scans. */
  lemma SwapBounds<T(!new)>(s: seq<T>, left: nat, i: nat, j: nat, right: nat, p: T, cmp: (T, T) -> int)
    requires Comparison(cmp) && left <= i < j < right < |s| && cmp(s[i], p) >= 0 && cmp(s[j], p) <= 0
    requires AllBelow(s, left, i, p, cmp) && AllAbove(s, j + 1, right + 1, p, cmp)
    ensures var t := s[i := s[j]][j := s[i]];
            AllBelow(t, left, i + 1, p, cmp) && AllAbove(t, j, right + 1, p, cmp)
  {
  }

  /** The pivot goes between the two parts. */
  lemma LastBounds<T(!new)>(s: seq<T>, left: nat, i: nat, j: nat, right: nat, cmp: (T, T) -> int)
    requires Comparison(cmp) && left <= i < right < |s| && j <= i
    requires var p := s[right - 1];
             cmp(s[i], p) >= 0 && AllBelow(s, left, i, p, cmp) && AllAbove(s, j + 1, right + 1, p, cmp)
    ensures var t := s[i := s[right - 1]][right - 1 := s[i]];
            AllBelow(t, left, i, t[i], cmp) && AllAbove(t, i, right + 1, t[i], cmp)
  {
  }

  /** The scan for an element that is not below the pivot. */
  method ScanUp<T(!new)>(a: array<T>, cmp: (T, T) -> int, left: nat, right: nat, i0: nat, j: nat, pivot: T)
      returns (i: nat)
    requires Comparison(cmp) && left <= i0 < j < right < a.Length
    requires AllBelow(a[..], left, i0 + 1, pivot, cmp) && AllAbove(a[..], j, right + 1, pivot, cmp)
    ensures i0 < i <= j && AllBelow(a[..], left, i, pivot, cmp) && cmp(a[i], pivot) >= 0
  {
    assert cmp(pivot, a[j]) <= 0;
    i := i0 + 1;
    while cmp(a[i], pivot) < 0
      invariant i0 < i <= j && AllBelow(a[..], left, i, pivot, cmp)
      decreases j - i
    {
      i := i + 1;
    }
  }

  /** The scan for an element that is not above the pivot. */
  method ScanDown<T(!new)>(a: array<T>, cmp: (T, T) -> int, left: nat, right: nat, i: nat, j0: nat, pivot: T)
      returns (j: nat)
    requires Comparison(cmp) && left < i <= j0 < right < a.Length
    requires AllBelow(a[..], left, i, pivot, cmp) && AllAbove(a[..], j0, right + 1, pivot, cmp)
    ensures i - 1 <= j < j0 && AllAbove(a[..], j + 1, right + 1, pivot, cmp) && cmp(a[j], pivot) <= 0
  {
    assert cmp(a[i - 1], pivot) <= 0;
    j := j0 - 1;
    while cmp(a[j], pivot) > 0
      invariant i - 1 <= j < j0 && AllAbove(a[..], j + 1, right + 1, pivot, cmp)
      decreases j
    {
      j := j - 1;
    }
  }

  /** quicksort */
  method QuickSortRange<T(!new)>(a: array<T>, cmp: (T, T) -> int, left: nat, right: nat)
    requires Comparison(cmp) && left <= right < a.Length
    modifies a
    ensures Sorted(a[..], left, right + 1, cmp) && Rearranged(old(a[..]), a[..], left, right + 1)
    decreases right - left
  {
    if left + 11 <= right {
      hide Comparison, Sorted, Rearranged, AllBelow, AllAbove;
      ghost var s0 := a[..];
      Median3(a, cmp, left, right);
      ghost var s1 := a[..];
      var i := Partition(a, cmp, left, right);
      ghost var s2, p := a[..], a[i];
      QuickSortRange(a, cmp, left, i - 1);
      ghost var s3 := a[..];
      QuickSortRange(a, cmp, i, right);
      QuickJoin(s0, s1, s2, s3, a[..], left, i, right, p, cmp);
    } else {
      SubInsertSort(a, cmp, left, right);
    }
  }

  lemma QuickJoin<T(!new)>(s0: seq<T>, s1: seq<T>, s2: seq<T>, s3: seq<T>, s4: seq<T>, left: nat, i: nat, right: nat,
                           p: T, cmp: (T, T) -> int)
    requires Comparison(cmp) && left < i < right < |s0|
    requires Rearranged(s0, s1, left, right + 1) && Rearranged(s1, s2, left, right + 1)
    requires Rearranged(s2, s3, left, i) && Rearranged(s3, s4, i, right + 1)
    requires |s0| == |s1| == |s2| == |s3| == |s4|
    requires AllBelow(s2, left, i, p, cmp) && AllAbove(s2, i, right + 1, p, cmp)
    requires Sorted(s3, left, i, cmp) && Sorted(s4, i, right + 1, cmp)
    ensures Sorted(s4, left, right + 1, cmp) && Rearranged(s0, s4, left, right + 1)
  {
    BoundsKept(s2, s3, left, i, p, cmp);
    assert AllAbove(s3, i, right + 1, p, cmp);
    BoundsKept(s3, s4, i, right + 1, p, cmp);
    assert AllBelow(s4, left, i, p, cmp) && Sorted(s4, left, i, cmp);
    JoinSorted(s4, left, i, right + 1, p, cmp);
    RearrangedTwice(s0, s1, s2, left, right + 1, left, right + 1);
    RearrangedTwice(s0, s2, s3, left, right + 1, left, i);
    RearrangedTwice(s0, s3, s4, left, right + 1, i, right + 1);
  }

  /** cel_quick_sort, for at least one element. */
  method QuickSort<T(!new)>(a: array<T>, cmp: (T, T) -> int)
    requires Comparison(cmp) && a.Length > 0
    modifies a
    ensures InOrder(a[..], cmp) && multiset(a[..]) == multiset(old(a[..]))
  {
    QuickSortRange(a, cmp, 0, a.Length - 1);
  }

  // ---------- shell sort ----------

  const GAPS: seq<nat> := [
    1, 5, 19, 41, 109, 209, 505, 929, 2161, 8929, 16001, 36289, 64769, 146305, 260609, 587521,
    1045505, 2354689, 4188161, 9427969, 16764929, 37730305, 67084289, 150958081, 268386305, 603906049,
    1073643521, 2147483647
  ]

  /** Elements a gap apart are in order, up to `hi`. */
  ghost predicate GapSorted<T>(s: seq<T>, hi: nat, gap: nat, cmp: (T, T) -> int)
    requires hi <= |s|
  {
    forall p :: 0 <= p && p + gap < hi ==> cmp(s[p], s[p + gap]) <= 0
  }

  /** The place `j` is free for `x`, among the elements that are whole gaps apart from it. */
  ghost predicate GapOpened<T>(s: seq<T>, i: nat, j: nat, gap: nat, x: T, cmp: (T, T) -> int)
  {
    && gap > 0 && j <= i < |s|
    && (forall p :: 0 <= p && p + gap <= i && p != j && p + gap != j ==> cmp(s[p], s[p + gap]) <= 0)
    && (j >= gap && j + gap <= i ==> cmp(s[j - gap], s[j + gap]) <= 0)
    && (j + gap <= i ==> cmp(x, s[j + gap]) < 0)
  }

  lemma GapOpenNext<T>(s: seq<T>, i: nat, j: nat, gap: nat, x: T, cmp: (T, T) -> int)
    requires GapOpened(s, i, j, gap, x, cmp) && gap <= j && cmp(x, s[j - gap]) < 0
    ensures GapOpened(s[j := s[j - gap]], i, j - gap, gap, x, cmp)
    ensures multiset(s[j := s[j - gap]][j - gap := x]) == multiset(s[j := x])
  {
    HoleMoves(s, j, j - gap, x);
    var h, t := j - gap, s[j := s[j - gap]];
    forall p | 0 <= p && p + gap <= i && p != h && p + gap != h ensures cmp(t[p], t[p + gap]) <= 0 {
      assert p + gap != j;
      assert p != j ==> cmp(s[p], s[p + gap]) <= 0;
    }
    if h >= gap {
      assert cmp(s[h - gap], s[h - gap + gap]) <= 0;
    }
  }

  lemma GapClose<T(!new)>(s: seq<T>, i: nat, j: nat, gap: nat, x: T, cmp: (T, T) -> int)
    requires Comparison(cmp) && GapOpened(s, i, j, gap, x, cmp) && (j < gap || cmp(x, s[j - gap]) >= 0)
    ensures GapSorted(s[j := x], i + 1, gap, cmp)
  {
    var t := s[j := x];
    forall p | 0 <= p && p + gap < i + 1 ensures cmp(t[p], t[p + gap]) <= 0 {
      if p + gap == j {
        assert cmp(s[j - gap], x) <= 0;
      }
    }
  }

  lemma GapOpenFirst<T>(s: seq<T>, i: nat, gap: nat, cmp: (T, T) -> int)
    requires gap > 0 && i < |s| && GapSorted(s, i, gap, cmp)
    ensures GapOpened(s, i, i, gap, s[i], cmp)
  {
  }

  /** The body of the loop of cel_shell_sort for one gap. */
  method GapInsert<T(!new)>(a: array<T>, cmp: (T, T) -> int, gap: nat, i: nat)
    requires Comparison(cmp) && 0 < gap <= i < a.Length && GapSorted(a[..], i, gap, cmp)
    modifies a
    ensures GapSorted(a[..], i + 1, gap, cmp) && multiset(a[..]) == multiset(old(a[..]))
  {
    hide Comparison, GapSorted, GapOpened;
    ghost var was := a[..];
    var tmp := a[i];
    var j: int := i;
    assert was[i := tmp] == was;
    GapOpenFirst(was, i, gap, cmp);
    while j >= gap && cmp(tmp, a[j - gap]) < 0
      invariant 0 <= j <= i && GapOpened(a[..], i, j, gap, tmp, cmp)
      invariant multiset(a[..][j := tmp]) == multiset(was)
      invariant j == i ==> a[..] == was
      decreases j
    {
      GapOpenNext(a[..], i, j, gap, tmp, cmp);
      ghost var s := a[..];
      a[j] := a[j - gap];
      assert a[..] == s[j := s[j - gap]];
      j := j - gap;
    }
    GapClose(a[..], i, j, gap, tmp, cmp);
    ghost var s := a[..];
    if j < i {
      a[j] := tmp;
    }
    assert a[..] == s[j := tmp];
  }

  lemma {:induction false} InOrderByOnes<T(!new)>(s: seq<T>, cmp: (T, T) -> int)
    requires Comparison(cmp) && GapSorted(s, |s|, 1, cmp)
    ensures InOrder(s, cmp)
  {
    if s != [] {
      var n := |s| - 1;
      InOrderByOnes(s[..n], cmp);
      forall p | 0 <= p < n ensures cmp(s[p], s[n]) <= 0 {
        assert cmp(s[n - 1], s[n - 1 + 1]) <= 0;
        assert p < n - 1 ==> cmp(s[..n][p], s[..n][n - 1]) <= 0;
      }
      forall p, q | 0 <= p < q < |s| ensures cmp(s[p], s[q]) <= 0 {
        if q < n {
          assert s[..n][p] == s[p] && s[..n][q] == s[q];
        }
      }
    }
  }

  /** cel_shell_sort, for lengths within its table of gaps. */
  method ShellSort<T(!new)>(a: array<T>, cmp: (T, T) -> int)
    requires Comparison(cmp) && a.Length <= 2147483647
    modifies a
    ensures InOrder(a[..], cmp) && multiset(a[..]) == multiset(old(a[..]))
  {
    hide Comparison, GapSorted, InOrder;
    var k: int := 0;
    while GAPS[k] < a.Length
      invariant 0 <= k < |GAPS|
      decreases |GAPS| - k
    {
      k := k + 1;
    }
    NoneApart(a[..], GAPS[k], cmp);
    k := k - 1;
    while k >= 0
      invariant -1 <= k < |GAPS| && GapSorted(a[..], a.Length, GAPS[k + 1], cmp)
      invariant multiset(a[..]) == multiset(old(a[..]))
    {
      GapPass(a, cmp, GAPS[k]);
      k := k - 1;
    }
    InOrderByOnes(a[..], cmp);
  }

  /** The body of its outer loop: insertion with one gap. */
  method GapPass<T(!new)>(a: array<T>, cmp: (T, T) -> int, gap: nat)
    requires Comparison(cmp) && gap > 0
    modifies a
    ensures GapSorted(a[..], a.Length, gap, cmp) && multiset(a[..]) == multiset(old(a[..]))
  {
    hide Comparison, GapSorted;
    var i := gap;
    NoneApart(a[..], gap, cmp);
    while i < a.Length
      invariant (i <= a.Length ==> GapSorted(a[..], i, gap, cmp)) && (i > a.Length ==> i == gap)
      invariant multiset(a[..]) == multiset(old(a[..]))
    {
      GapInsert(a, cmp, gap, i);
      i := i + 1;
    }
    NoneApart(a[..], gap, cmp);
  }

  lemma NoneApart<T>(s: seq<T>, gap: nat, cmp: (T, T) -> int)
    ensures forall hi :: 0 <= hi <= |s| && hi <= gap ==> GapSorted(s, hi, gap, cmp)
  {
  }
}
