/** Bottom-up merging as a function: what HASH_SRT makes of a list. */
module UtMerge {
  import opened Common

  /** The comparison orders the elements of a set: any two compare, and the order carries over. */
  ghost predicate Ordering<T>(S: set<T>, cmp: (T, T) -> int)
  {
    && (forall x, y :: x in S && y in S ==> cmp(x, y) <= 0 || cmp(y, x) <= 0)
    && (forall x, y, z :: x in S && y in S && z in S && cmp(x, y) <= 0 && cmp(y, z) <= 0 ==> cmp(x, z) <= 0)
  }

  ghost predicate Among<T>(s: seq<T>, S: set<T>) { forall i :: 0 <= i < |s| ==> s[i] in S }

  ghost predicate SortedBy<T>(s: seq<T>, cmp: (T, T) -> int) {
    forall i, j :: 0 <= i < j < |s| ==> cmp(s[i], s[j]) <= 0
  }

  /** The elements that compare equal to `x`, in the order they come. */
  function Class<T>(s: seq<T>, x: T, cmp: (T, T) -> int): (c: seq<T>)
  {
    if s == [] then [] else (if cmp(s[0], x) <= 0 && cmp(x, s[0]) <= 0 then [s[0]] else []) + Class(s[1..], x, cmp)
  }

  lemma ClassCons<T>(s: seq<T>, x: T, cmp: (T, T) -> int)
    requires s != []
    ensures Class(s, x, cmp) ==
            (if cmp(s[0], x) <= 0 && cmp(x, s[0]) <= 0 then [s[0]] else []) + Class(s[1..], x, cmp)
  {
  }

  lemma {:induction false} ClassConcat<T>(s: seq<T>, t: seq<T>, x: T, cmp: (T, T) -> int)
    ensures Class(s + t, x, cmp) == Class(s, x, cmp) + Class(t, x, cmp)
  {
    if s == [] {
      assert s + t == t;
    } else {
      hide *;
      ClassConcat(s[1..], t, x, cmp);
      FirstOfConcat(s, t);
      ClassCons(s, x, cmp);
      ClassCons(s + t, x, cmp);
      var h := if cmp(s[0], x) <= 0 && cmp(x, s[0]) <= 0 then [s[0]] else [];
      Associates(h, Class(s[1..], x, cmp), Class(t, x, cmp));
    }
  }

  // ---------- one merge ----------

  /** Two lists into one; of equal elements those of the first list go first. */
  function Merge<T>(a: seq<T>, b: seq<T>, cmp: (T, T) -> int): (m: seq<T>)
    ensures |m| == |a| + |b|
  {
    if a == [] then b
    else if b == [] then a
    else if cmp(a[0], b[0]) <= 0 then [a[0]] + Merge(a[1..], b, cmp)
    else [b[0]] + Merge(a, b[1..], cmp)
  }

  lemma HeadElements<T>(h: T, t: seq<T>)
    ensures multiset([h] + t) == multiset{h} + multiset(t)
  {
  }

  lemma {:induction false} MergeElements<T>(a: seq<T>, b: seq<T>, cmp: (T, T) -> int)
    ensures multiset(Merge(a, b, cmp)) == multiset(a) + multiset(b)
  {
    if a != [] && b != [] {
      if cmp(a[0], b[0]) <= 0 {
        MergeElements(a[1..], b, cmp);
        assert Merge(a, b, cmp) == [a[0]] + Merge(a[1..], b, cmp);
        hide *;
        FirstElement(a, b, Merge(a[1..], b, cmp));
      } else {
        MergeElements(a, b[1..], cmp);
        assert Merge(a, b, cmp) == [b[0]] + Merge(a, b[1..], cmp);
        hide *;
        FirstElement(b, a, Merge(a, b[1..], cmp));
      }
    }
  }

  lemma FirstElement<T>(s: seq<T>, t: seq<T>, m: seq<T>)
    requires s != [] && multiset(m) == multiset(s[1..]) + multiset(t)
    ensures multiset([s[0]] + m) == multiset(s) + multiset(t)
  {
    HeadElements(s[0], m);
    HeadElements(s[0], s[1..]);
    assert s == [s[0]] + s[1..];
  }

  /** A lower bound of both lists is one of the merged list. */
  lemma {:induction false} MergeAbove<T>(a: seq<T>, b: seq<T>, cmp: (T, T) -> int, x: T)
    requires forall i :: 0 <= i < |a| ==> cmp(x, a[i]) <= 0
    requires forall i :: 0 <= i < |b| ==> cmp(x, b[i]) <= 0
    ensures forall i :: 0 <= i < |Merge(a, b, cmp)| ==> cmp(x, Merge(a, b, cmp)[i]) <= 0
  {
    if a != [] && b != [] {
      if cmp(a[0], b[0]) <= 0 {
        MergeAbove(a[1..], b, cmp, x);
      } else {
        MergeAbove(a, b[1..], cmp, x);
      }
    }
  }

  lemma {:induction false} MergeSorted<T>(a: seq<T>, b: seq<T>, cmp: (T, T) -> int, S: set<T>)
    requires Ordering(S, cmp) && Among(a, S) && Among(b, S) && SortedBy(a, cmp) && SortedBy(b, cmp)
    ensures SortedBy(Merge(a, b, cmp), cmp)
  {
    if a != [] && b != [] {
      if cmp(a[0], b[0]) <= 0 {
        Reaches(a[0], b, cmp, S);
        MergeSorted(a[1..], b, cmp, S);
        MergeAbove(a[1..], b, cmp, a[0]);
      } else {
        assert cmp(b[0], a[0]) <= 0;
        Reaches(b[0], a, cmp, S);
        MergeSorted(a, b[1..], cmp, S);
        MergeAbove(a, b[1..], cmp, b[0]);
      }
    }
  }

  /** What is not above the first element of a sorted list is above none. */
  lemma Reaches<T>(x: T, b: seq<T>, cmp: (T, T) -> int, S: set<T>)
    requires Ordering(S, cmp) && x in S && Among(b, S) && SortedBy(b, cmp) && b != [] && cmp(x, b[0]) <= 0
    ensures forall i :: 0 <= i < |b| ==> cmp(x, b[i]) <= 0
  {
    forall i | 0 <= i < |b| ensures cmp(x, b[i]) <= 0 {
      assert b[0] in S && b[i] in S;
      assert i > 0 ==> cmp(b[0], b[i]) <= 0;
    }
  }

  /** A list all above `x` has nothing that compares equal to it. */
  lemma {:induction false} NoClass<T>(a: seq<T>, x: T, cmp: (T, T) -> int)
    requires forall i :: 0 <= i < |a| ==> cmp(a[i], x) > 0
    ensures Class(a, x, cmp) == []
  {
    if a != [] {
      NoClass(a[1..], x, cmp);
    }
  }

  /** A sorted list that starts above `y` is above all that compares equal to `y`. */
  lemma AllAbove<T>(a: seq<T>, y: T, x: T, cmp: (T, T) -> int, S: set<T>)
    requires Ordering(S, cmp) && Among(a, S) && SortedBy(a, cmp) && a != [] && x in S && y in S
    requires cmp(a[0], y) > 0 && cmp(x, y) <= 0
    ensures forall i :: 0 <= i < |a| ==> cmp(a[i], x) > 0
  {
    forall i | 0 <= i < |a| ensures cmp(a[i], x) > 0 {
      assert a[0] in S;
      Above(a[0], a[i], y, x, cmp, S);
    }
  }

  lemma Above<T>(v: T, w: T, y: T, x: T, cmp: (T, T) -> int, S: set<T>)
    requires Ordering(S, cmp) && v in S && w in S && x in S && y in S
    requires cmp(v, y) > 0 && cmp(x, y) <= 0 && (v == w || cmp(v, w) <= 0)
    ensures cmp(w, x) > 0
  {
    assert cmp(w, x) <= 0 ==> cmp(w, y) <= 0;
  }

  /** Stability: equal elements of the first list before those of the second, each in their order. */
  lemma {:induction false} MergeClass<T>(a: seq<T>, b: seq<T>, cmp: (T, T) -> int, S: set<T>, x: T)
    requires Ordering(S, cmp) && Among(a, S) && Among(b, S) && SortedBy(a, cmp) && SortedBy(b, cmp) && x in S
    ensures Class(Merge(a, b, cmp), x, cmp) == Class(a, x, cmp) + Class(b, x, cmp)
  {
    if a == [] || b == [] {
      hide Class, Ordering;
      ClassConcat(a, b, x, cmp);
      assert a + b == if a == [] then b else a;
    } else if cmp(a[0], b[0]) <= 0 {
      MergeClass(a[1..], b, cmp, S, x) by { hide Class, Merge, Ordering; }
      assert Merge(a, b, cmp) == [a[0]] + Merge(a[1..], b, cmp);
      hide *;
      ClassLeft(a, b, Merge(a[1..], b, cmp), x, cmp);
    } else {
      MergeClass(a, b[1..], cmp, S, x) by { hide Class, Merge, Ordering; }
      assert Merge(a, b, cmp) == [b[0]] + Merge(a, b[1..], cmp);
      hide Class, Merge, Ordering;
      FirstClass(a, b[0], x, cmp, S);
      hide *;
      ClassRight(a, b, Merge(a, b[1..], cmp), x, cmp);
    }
  }

  lemma ClassLeft<T>(a: seq<T>, b: seq<T>, m: seq<T>, x: T, cmp: (T, T) -> int)
    requires a != [] && Class(m, x, cmp) == Class(a[1..], x, cmp) + Class(b, x, cmp)
    ensures Class([a[0]] + m, x, cmp) == Class(a, x, cmp) + Class(b, x, cmp)
  {
    hide Class;
    ClassConcat([a[0]], m, x, cmp);
    ClassConcat([a[0]], a[1..], x, cmp);
    assert a == [a[0]] + a[1..];
  }

  lemma ClassRight<T>(a: seq<T>, b: seq<T>, m: seq<T>, x: T, cmp: (T, T) -> int)
    requires b != [] && Class(m, x, cmp) == Class(a, x, cmp) + Class(b[1..], x, cmp)
    requires Class(a, x, cmp) == [] || Class([b[0]], x, cmp) == []
    ensures Class([b[0]] + m, x, cmp) == Class(a, x, cmp) + Class(b, x, cmp)
  {
    hide Class;
    ClassConcat([b[0]], m, x, cmp);
    ClassConcat([b[0]], b[1..], x, cmp);
    assert b == [b[0]] + b[1..];
    assert Class(a, x, cmp) + Class([b[0]], x, cmp) == Class([b[0]], x, cmp) + Class(a, x, cmp);
  }

  /** An element that goes before a list because it is below: not both have what compares equal to `x`. */
  lemma FirstClass<T>(a: seq<T>, y: T, x: T, cmp: (T, T) -> int, S: set<T>)
    requires Ordering(S, cmp) && Among(a, S) && SortedBy(a, cmp) && a != [] && x in S && y in S && cmp(a[0], y) > 0
    ensures Class(a, x, cmp) == [] || Class([y], x, cmp) == []
  {
    if cmp(x, y) <= 0 {
      AllAbove(a, y, x, cmp, S);
      NoClass(a, x, cmp);
    }
  }

  // ---------- one pass ----------

  function Min(a: nat, b: nat): nat { if a < b then a else b }

  /** One pass: pairs of neighbouring runs of `k` elements are merged. */
  function Pass<T>(s: seq<T>, k: nat, cmp: (T, T) -> int): (r: seq<T>)
    requires k > 0
    ensures |r| == |s|
    decreases |s|
  {
    if s == [] then []
    else
      var p := Min(k, |s|);
      var q := Min(2 * k, |s|);
      Merge(s[..p], s[p..q], cmp) + Pass(s[q..], k, cmp)
  }

  /** Each run of `k` elements is sorted. */
  ghost predicate Runs<T>(s: seq<T>, k: nat, cmp: (T, T) -> int)
    requires k > 0
    decreases |s|
  {
    if |s| <= k then SortedBy(s, cmp) else SortedBy(s[..k], cmp) && Runs(s[k..], k, cmp)
  }

  lemma {:induction false} PassElements<T>(s: seq<T>, k: nat, cmp: (T, T) -> int)
    requires k > 0
    ensures multiset(Pass(s, k, cmp)) == multiset(s)
    decreases |s|
  {
    hide Merge, Pass;
    PassStep(s, k, cmp);
    if s != [] {
      var a, b, c := s[..Min(k, |s|)], s[Min(k, |s|)..Min(2 * k, |s|)], s[Min(2 * k, |s|)..];
      MergeElements(a, b, cmp);
      PassElements(c, k, cmp);
      assert s == a + b + c;
    }
  }

  lemma PassStep<T>(s: seq<T>, k: nat, cmp: (T, T) -> int)
    requires k > 0
    ensures var p, q := Min(k, |s|), Min(2 * k, |s|);
            Pass(s, k, cmp) == if s == [] then [] else Merge(s[..p], s[p..q], cmp) + Pass(s[q..], k, cmp)
  {
  }

  lemma {:induction false} PassRuns<T>(s: seq<T>, k: nat, cmp: (T, T) -> int, S: set<T>)
    requires k > 0 && Ordering(S, cmp) && Among(s, S) && Runs(s, k, cmp)
    ensures Runs(Pass(s, k, cmp), 2 * k, cmp)
    decreases |s|
  {
    if s != [] {
      var p, q := Min(k, |s|), Min(2 * k, |s|);
      RunsSplit(s, k, cmp);
      MergeSorted(s[..p], s[p..q], cmp, S);
      PassRuns(s[q..], k, cmp, S);
      var m, r := Merge(s[..p], s[p..q], cmp), Pass(s[q..], k, cmp);
      if |s| <= 2 * k {
        assert m + r == m;
      } else {
        assert (m + r)[..2 * k] == m && (m + r)[2 * k..] == r;
      }
    }
  }

  lemma NoneSorted<T>(cmp: (T, T) -> int)
    ensures SortedBy([], cmp) && forall k: nat :: k > 0 ==> Runs([], k, cmp)
  {
  }

  /** The first two runs, and the rest. */
  lemma RunsSplit<T>(s: seq<T>, k: nat, cmp: (T, T) -> int)
    requires k > 0 && Runs(s, k, cmp)
    ensures var p, q := Min(k, |s|), Min(2 * k, |s|);
            SortedBy(s[..p], cmp) && SortedBy(s[p..q], cmp) && Runs(s[q..], k, cmp)
  {
    hide SortedBy;
    var p, q := Min(k, |s|), Min(2 * k, |s|);
    if |s| <= k {
      assert s[..p] == s && s[p..q] == [] == s[q..];
      NoneSorted(cmp);
    } else {
      var t := s[k..];
      if |t| <= k {
        assert s[p..q] == t && s[q..] == [];
        NoneSorted(cmp);
      } else {
        assert s[p..q] == t[..k] && s[q..] == t[k..];
      }
    }
  }

  lemma {:induction false} PassClass<T>(s: seq<T>, k: nat, cmp: (T, T) -> int, S: set<T>, x: T)
    requires k > 0 && Ordering(S, cmp) && Among(s, S) && Runs(s, k, cmp) && x in S
    ensures Class(Pass(s, k, cmp), x, cmp) == Class(s, x, cmp)
    decreases |s|
  {
    hide Class, Merge, Runs, SortedBy, Ordering, Pass;
    PassStep(s, k, cmp);
    if s != [] {
      var a, b, c := s[..Min(k, |s|)], s[Min(k, |s|)..Min(2 * k, |s|)], s[Min(2 * k, |s|)..];
      RunsSplit(s, k, cmp);
      MergeClass(a, b, cmp, S, x);
      PassClass(c, k, cmp, S, x);
      ClassConcat(Merge(a, b, cmp), Pass(c, k, cmp), x, cmp);
      ClassConcat(a, b, x, cmp);
      ClassConcat(a + b, c, x, cmp);
      assert s == a + b + c;
    }
  }

  // ---------- the sort ----------

  /** Passes over runs of doubling length, until one merge is enough. */
  function SortFrom<T>(s: seq<T>, k: nat, cmp: (T, T) -> int): (r: seq<T>)
    requires k > 0
    ensures |r| == |s|
    decreases if |s| > k then |s| - k else 0
  {
    var t := Pass(s, k, cmp);
    if |s| <= 2 * k then t else SortFrom(t, 2 * k, cmp)
  }

  lemma {:induction false} SortFromIs<T>(s: seq<T>, k: nat, cmp: (T, T) -> int, S: set<T>)
    requires k > 0 && Ordering(S, cmp) && Among(s, S) && Runs(s, k, cmp)
    ensures SortedBy(SortFrom(s, k, cmp), cmp)
    ensures forall x :: x in S ==> Class(SortFrom(s, k, cmp), x, cmp) == Class(s, x, cmp)
    decreases if |s| > k then |s| - k else 0
  {
    var t := Pass(s, k, cmp);
    PassRuns(s, k, cmp, S);
    forall x | x in S ensures Class(t, x, cmp) == Class(s, x, cmp) {
      PassClass(s, k, cmp, S, x);
    }
    if |s| > 2 * k {
      AmongPass(s, k, cmp, S);
      SortFromIs(t, 2 * k, cmp, S);
    }
  }

  lemma AmongPass<T>(s: seq<T>, k: nat, cmp: (T, T) -> int, S: set<T>)
    requires k > 0 && Among(s, S)
    ensures Among(Pass(s, k, cmp), S)
  {
    PassElements(s, k, cmp);
    var t := Pass(s, k, cmp);
    forall i | 0 <= i < |t| ensures t[i] in S {
      assert t[i] in multiset(t);
      assert t[i] in multiset(s);
    }
  }

  lemma {:induction false} SortFromElements<T>(s: seq<T>, k: nat, cmp: (T, T) -> int)
    requires k > 0
    ensures multiset(SortFrom(s, k, cmp)) == multiset(s)
    decreases if |s| > k then |s| - k else 0
  {
    PassElements(s, k, cmp);
    if |s| > 2 * k {
      SortFromElements(Pass(s, k, cmp), 2 * k, cmp);
    }
  }

  lemma {:induction false} RunsOfOne<T>(s: seq<T>, cmp: (T, T) -> int)
    ensures Runs(s, 1, cmp)
  {
    if |s| > 1 {
      RunsOfOne(s[1..], cmp);
    }
  }

  /** A sorted, stable permutation. */
  lemma SortIsStable<T>(s: seq<T>, cmp: (T, T) -> int, S: set<T>)
    requires Ordering(S, cmp) && Among(s, S)
    ensures var r := SortFrom(s, 1, cmp);
            && SortedBy(r, cmp) && multiset(r) == multiset(s)
            && forall x :: x in S ==> Class(r, x, cmp) == Class(s, x, cmp)
  {
    RunsOfOne(s, cmp);
    SortFromIs(s, 1, cmp, S);
    SortFromElements(s, 1, cmp);
  }
}
