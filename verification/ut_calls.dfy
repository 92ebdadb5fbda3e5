/** Any sequence of the operations of uthash on one table. */
module UtCalls {
  import opened UtLists
  import opened UtHash
  import opened UtMerge
  import opened UtSort

  /** An application looks before it adds, as the documentation asks, and deletes what it has found. */
  datatype Call =
    | ToAdd(key: Key, e: Elem)
    | ToReplace(key: Key, e: Elem)
    | ToDelete(key: Key)
    | ToSort(cmp: (Elem, Elem) -> int)

  /** The calls that bring an element of their own. */
  predicate Brings(c: Call) { c.ToAdd? || c.ToReplace? }

  function Meant(m: map<Key, Elem>, c: Call): map<Key, Elem> {
    match c
    case ToAdd(key, e) => if key in m then m else m[key := e]
    case ToReplace(key, e) => m[key := e]
    case ToDelete(key) => m - {key}
    case ToSort(_) => m
  }

  function AllMeant(m: map<Key, Elem>, cs: seq<Call>): map<Key, Elem> {
    if cs == [] then m else Meant(AllMeant(m, cs[..|cs| - 1]), cs[|cs| - 1])
  }

  ghost function Added(cs: seq<Call>): set<Elem> { set i | 0 <= i < |cs| && Brings(cs[i]) :: cs[i].e }

  ghost function Elements(s: seq<Elem>): set<Elem> { set i | 0 <= i < |s| :: s[i] }

  /** No element is added twice, and none that is in the table. */
  ghost predicate EachOnce(app: seq<Elem>, cs: seq<Call>) {
    && (forall i :: 0 <= i < |cs| && Brings(cs[i]) ==> cs[i].e !in app)
    && (forall i, j :: 0 <= i < j < |cs| && Brings(cs[i]) && Brings(cs[j]) ==> cs[i].e != cs[j].e)
  }

  /** One call. */
  method One(t: HashTable, c: Call)
    requires t.Valid() && (Brings(c) ==> c.e !in t.app)
    modifies t, t.buckets, t.app, Added([c])
    ensures t.Valid() && t.Items() == Meant(old(t.Items()), c)
    ensures t.buckets == old(t.buckets) || fresh(t.buckets)
    ensures Elements(t.app) <= Elements(old(t.app)) + Added([c])
  {
    hide HashTable.Valid, MapOf, SortFrom;
    assert Brings(c) ==> [c][0].e in Added([c]);
    match c {
      case ToAdd(key, add) =>
        var e := t.Find(key);
        if e == null {
          t.Add(key, add);
        }
      case ToReplace(key, add) =>
        var _ := t.Replace(key, add);
      case ToDelete(key) =>
        DeleteKey(t, key);
      case ToSort(cmp) =>
        ghost var was := t.app;
        Sort(t, cmp);
        SameElements(was, t.app);
    }
  }

  method DeleteKey(t: HashTable, key: Key)
    requires t.Valid()
    modifies t, t.buckets, t.app
    ensures t.Valid() && t.Items() == old(t.Items()) - {key} && t.buckets == old(t.buckets)
    ensures Elements(t.app) <= Elements(old(t.app))
  {
    hide HashTable.Valid, MapOf;
    var e := t.Find(key);
    if e == null {
      assert t.Items() - {key} == t.Items();
    } else {
      ghost var was := t.app;
      t.DistinctNow();
      t.Delete(e);
      ghost var k :| 0 <= k < |was| && was[k] == e && t.app == Without(was, k);
      WithoutElements(was, k);
    }
  }

  lemma SameElements(s: seq<Elem>, t: seq<Elem>)
    requires multiset(s) == multiset(t)
    ensures Elements(t) <= Elements(s)
  {
    forall e | e in Elements(t) ensures e in Elements(s) {
      assert e in multiset(t);
      assert e in multiset(s);
    }
  }

  /** Any sequence of calls keeps everything that is checked and agrees with a plain map. */
  method Perform(t: HashTable, cs: seq<Call>)
    requires t.Valid() && EachOnce(t.app, cs)
    modifies t, t.buckets, t.app, Added(cs)
    ensures t.Valid() && t.Items() == AllMeant(old(t.Items()), cs)
  {
    hide HashTable.Valid, MapOf, Brings;
    var i := 0;
    ghost var m := t.Items();
    while i < |cs|
      invariant i <= |cs| && t.Valid() && t.Items() == AllMeant(m, cs[..i])
      invariant Elements(t.app) <= Elements(old(t.app)) + Added(cs[..i])
      invariant t.buckets == old(t.buckets) || fresh(t.buckets)
    {
      assert cs[..i + 1][..i] == cs[..i];
      NotYet(old(t.app), t.app, cs, i);
      One(t, cs[i]);
      i := i + 1;
    }
    assert cs[..i] == cs;
  }

  /** The element of the next call is none of those in the table. */
  lemma NotYet(was: seq<Elem>, now: seq<Elem>, cs: seq<Call>, i: nat)
    requires i < |cs| && EachOnce(was, cs) && Elements(now) <= Elements(was) + Added(cs[..i])
    ensures Brings(cs[i]) ==> cs[i].e !in now
    ensures Added(cs[..i]) + Added([cs[i]]) == Added(cs[..i + 1]) && Added(cs[..i + 1]) <= Added(cs)
    ensures Elements(now) <= Elements(was) + Added(cs)
  {
    assert cs[..i + 1] == cs[..i] + [cs[i]];
    AddedSnoc(cs[..i], cs[i]);
    AddedPart(cs, i);
    AddedPart(cs, i + 1);
    NotAdded(was, cs, i);
    if Brings(cs[i]) {
      InElements(now, cs[i].e);
    }
  }

  lemma InElements(s: seq<Elem>, e: Elem)
    ensures e in s ==> e in Elements(s)
  {
  }

  lemma NotAdded(was: seq<Elem>, cs: seq<Call>, i: nat)
    requires i < |cs| && EachOnce(was, cs)
    ensures Brings(cs[i]) ==> cs[i].e !in Elements(was) && cs[i].e !in Added(cs[..i])
  {
    forall j | 0 <= j < i && Brings(cs[..i][j]) && Brings(cs[i]) ensures cs[..i][j].e != cs[i].e {
    }
  }

  lemma AddedSnoc(cs: seq<Call>, c: Call)
    ensures Added(cs + [c]) == Added(cs) + Added([c])
  {
    var ds := cs + [c];
    forall e | e in Added(cs) + Added([c]) ensures e in Added(ds) {
      if e in Added(cs) {
        var i :| 0 <= i < |cs| && Brings(cs[i]) && cs[i].e == e;
        assert Brings(ds[i]) && ds[i].e == e;
      } else {
        assert Brings(ds[|cs|]) && ds[|cs|].e == e;
      }
    }
    forall e | e in Added(ds) ensures e in Added(cs) + Added([c]) {
      var i :| 0 <= i < |ds| && Brings(ds[i]) && ds[i].e == e;
      assert if i < |cs| then cs[i].e == e else [c][0].e == e;
    }
  }

  lemma AddedPart(cs: seq<Call>, i: nat)
    requires i <= |cs|
    ensures Added(cs[..i]) <= Added(cs)
  {
    forall e | e in Added(cs[..i]) ensures e in Added(cs) {
      var j :| 0 <= j < i && Brings(cs[..i][j]) && cs[..i][j].e == e;
      assert Brings(cs[j]) && cs[j].e == e;
    }
  }
}
