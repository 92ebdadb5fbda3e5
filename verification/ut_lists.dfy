/** The doubly linked lists that run through hash handles, and what list surgery does to their pointers. */
module UtLists {
  import opened Common

  /** The bytes of a key. */
  type Key = seq<int>

  /** An element with its hash handle (UT_hash_handle). */
  class Elem {
    var key: Key
    var hashv: nat
    var prev: Elem?
    var next: Elem?
    var hhPrev: Elem?
    var hhNext: Elem?

    constructor (key: Key)
      ensures this.key == key
    {
      this.key := key;
      hashv := 0;
      prev, next, hhPrev, hhNext := null, null, null, null;
    }
  }

  /** One kind of pointer, for each element of interest. */
  type Pointers = map<Elem, Elem?>

  function At(s: seq<Elem>, i: int): Elem? { if 0 <= i < |s| then s[i] else null }

  lemma AtIs(s: seq<Elem>, i: nat)
    requires i <= |s|
    ensures At(s, i) == if i < |s| then s[i] else null
  {
  }

  lemma BeforeFirst(s: seq<Elem>)
    ensures At(s, -1) == null
  {
  }

  /** The pointers string the elements together in the order of the sequence. */
  ghost predicate Linked(s: seq<Elem>, prev: Pointers, next: Pointers)
  {
    forall i {:trigger s[i] in prev} {:trigger s[i] in next} {:trigger prev[s[i]]} {:trigger next[s[i]]} ::
      0 <= i < |s| ==>
      s[i] in prev && s[i] in next && prev[s[i]] == At(s, i - 1) && next[s[i]] == At(s, i + 1)
  }

  /** A pointer of `e`, if there is one to set. */
  ghost function Set(p: Pointers, e: Elem?, to: Elem?): Pointers { if e == null then p else p[e := to] }

  function Without(s: seq<Elem>, k: nat): seq<Elem>
    requires k < |s|
  {
    s[..k] + s[k + 1..]
  }

  /** A new first element. */
  lemma FrontLinked(s: seq<Elem>, e: Elem, prev: Pointers, next: Pointers)
    requires Linked(s, prev, next) && Distinct(s) && e !in s
    ensures Distinct([e] + s) && Linked([e] + s, Set(prev[e := null], At(s, 0), e), next[e := At(s, 0)])
  {
    var t := [e] + s;
    var prev', next' := Set(prev[e := null], At(s, 0), e), next[e := At(s, 0)];
    forall i | 0 <= i < |t| ensures prev'[t[i]] == At(t, i - 1) && next'[t[i]] == At(t, i + 1) {
      if i > 0 {
        assert t[i] == s[i - 1] && next[s[i - 1]] == At(s, i);
        assert i > 1 ==> s[i - 1] != s[0];
      }
    }
  }

  /** A new last element. */
  lemma BackLinked(s: seq<Elem>, e: Elem, prev: Pointers, next: Pointers)
    requires Linked(s, prev, next) && Distinct(s) && e !in s
    ensures Distinct(s + [e]) && Linked(s + [e], prev[e := At(s, |s| - 1)], Set(next[e := null], At(s, |s| - 1), e))
  {
    var t := s + [e];
    var prev', next' := prev[e := At(s, |s| - 1)], Set(next[e := null], At(s, |s| - 1), e);
    forall i | 0 <= i < |t| ensures prev'[t[i]] == At(t, i - 1) && next'[t[i]] == At(t, i + 1) {
      if i < |s| {
        assert t[i] == s[i] && prev[s[i]] == At(s, i - 1);
        assert i < |s| - 1 ==> s[i] != s[|s| - 1] && next[s[i]] == At(s, i + 1);
      }
    }
  }

  /** An element taken out: its neighbours point past it. */
  lemma WithoutLinked(s: seq<Elem>, k: nat, prev: Pointers, next: Pointers)
    requires Linked(s, prev, next) && Distinct(s) && k < |s|
    ensures Distinct(Without(s, k)) && s[k] !in Without(s, k)
    ensures Linked(Without(s, k), Set(prev, At(s, k + 1), At(s, k - 1)), Set(next, At(s, k - 1), At(s, k + 1)))
  {
    hide Without;
    var t := Without(s, k);
    var prev', next' := Set(prev, At(s, k + 1), At(s, k - 1)), Set(next, At(s, k - 1), At(s, k + 1));
    forall i | 0 <= i < |t|
        ensures t[i] in prev' && t[i] in next' && prev'[t[i]] == At(t, i - 1) && next'[t[i]] == At(t, i + 1) {
      WithoutAt(s, k, i - 1);
      WithoutAt(s, k, i);
      WithoutAt(s, k, i + 1);
      NeighboursWithout(s, k, if i < k then i else i + 1, prev, next);
    }
    forall i, j | 0 <= i < j < |t| ensures t[i] != t[j] {
      WithoutAt(s, k, i);
      WithoutAt(s, k, j);
    }
    forall i | 0 <= i < |t| ensures t[i] != s[k] {
      WithoutAt(s, k, i);
    }
  }

  lemma WithoutAt(s: seq<Elem>, k: nat, i: int)
    requires k < |s|
    ensures |Without(s, k)| == |s| - 1
    ensures At(Without(s, k), i) == At(s, if i < k then i else i + 1)
  {
  }

  lemma NeighboursWithout(s: seq<Elem>, k: nat, o: nat, prev: Pointers, next: Pointers)
    requires Linked(s, prev, next) && Distinct(s) && k < |s| && o < |s| && o != k
    ensures var prev', next' := Set(prev, At(s, k + 1), At(s, k - 1)), Set(next, At(s, k - 1), At(s, k + 1));
            && s[o] in prev' && s[o] in next'
            && prev'[s[o]] == At(s, if o == k + 1 then k - 1 else o - 1)
            && next'[s[o]] == At(s, if o == k - 1 then k + 1 else o + 1)
  {
    assert s[o] in prev && s[o] in next && prev[s[o]] == At(s, o - 1) && next[s[o]] == At(s, o + 1);
    assert o != k - 1 && k > 0 ==> s[o] != s[k - 1];
    assert o != k + 1 && k + 1 < |s| ==> s[o] != s[k + 1];
  }

  /** The pointers of an element are the same in two states. */
  ghost predicate Same(e: Elem, p: Pointers, p': Pointers) { e in p && e in p' && p[e] == p'[e] }

  /** A list none of whose pointers changed. */
  lemma OtherLinked(s: seq<Elem>, prev: Pointers, next: Pointers, prev': Pointers, next': Pointers)
    requires Linked(s, prev, next)
    requires forall i :: 0 <= i < |s| ==> Same(s[i], prev, prev') && Same(s[i], next, next')
    ensures Linked(s, prev', next')
  {
    forall i | 0 <= i < |s|
        ensures s[i] in prev' && s[i] in next' && prev'[s[i]] == At(s, i - 1) && next'[s[i]] == At(s, i + 1) {
      assert Same(s[i], prev, prev') && Same(s[i], next, next');
      assert prev[s[i]] == At(s, i - 1);
    }
  }

  /** Each element occurs once, so its place tells its neighbours apart. */
  lemma WithoutHas(s: seq<Elem>, k: nat, e: Elem)
    requires Distinct(s) && k < |s|
    ensures e in Without(s, k) <==> e in s && e != s[k]
  {
    if e in s && e != s[k] {
      var i :| 0 <= i < |s| && s[i] == e;
      assert Without(s, k)[if i < k then i else i - 1] == e;
    }
  }
}
