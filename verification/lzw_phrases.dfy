/** What the codes of a text stand for: the longest phrases that have been seen. */
module LzwPhrases {
  import opened Common
  import opened Lzw

  /** The phrase that the dictionary gains after phrase `j`: that phrase and the byte after it. */
  function Gained(ps: seq<Text>, j: nat): Text
    requires j + 1 < |ps|
  {
    ps[j] + [First(ps[j + 1])]
  }

  /** The code of phrase `k` is its byte, or tells after which phrase it was gained. */
  ghost predicate Stands(ps: seq<Text>, codes: seq<nat>, k: nat)
    requires k < |ps| && k < |codes|
  {
    || (|ps[k]| == 1 && codes[k] == ps[k][0])
    || (exists j :: 0 <= j < k && ps[k] == Gained(ps, j) && codes[k] == 256 + j)
  }

  /** Phrase `k` and the byte after it are not in the dictionary yet. */
  ghost predicate Longest(ps: seq<Text>, k: nat)
    requires k + 1 < |ps|
  {
    forall j :: 0 <= j < k ==> Gained(ps, j) != Gained(ps, k)
  }

  ghost predicate NonEmpty(ps: seq<Text>) { forall k :: 0 <= k < |ps| ==> ps[k] != [] }

  /** The first `n` phrases have their codes, and each is the longest one known. */
  ghost predicate Coded(ps: seq<Text>, codes: seq<nat>, n: nat)
    requires n <= |ps| && n <= |codes|
  {
    && (forall k :: 0 <= k < n ==> Stands(ps, codes, k))
    && (forall k :: 0 <= k < n && k + 1 < |ps| ==> Longest(ps, k))
  }

  /** The text is cut into the phrases `ps`, and these are the codes of it. */
  ghost predicate IsLzw(x: Text, ps: seq<Text>, codes: seq<nat>) {
    |ps| == |codes| && NonEmpty(ps) && Concat(ps) == x && Coded(ps, codes, |ps|)
  }

  // ---------- the encoder finds them ----------

  /** The dictionary while the last of the phrases grows. */
  ghost predicate Holds(dict: Codes, ps: seq<Text>, w: Text)
    requires ps != [] && w in dict
  {
    || (|w| == 1 && dict[w] == w[0])
    || (exists j :: 0 <= j < |ps| - 1 && w == Gained(ps, j) && dict[w] == 256 + j)
  }

  ghost predicate Growing(dict: Codes, ps: seq<Text>) {
    && ps != [] && NonEmpty(ps) && ps[|ps| - 1] in dict
    && (forall b: Byte :: b != 0 ==> [b] in dict)
    && (forall w :: w in dict && w != [] ==> Holds(dict, ps, w))
    && (forall j :: 0 <= j < |ps| - 1 ==> Gained(ps, j) in dict)
    && (forall i :: 0 <= i < |ps| ==> NoNul(ps[i]))
  }

  lemma FirstGrowing(b: Byte)
    requires b != 0
    ensures Growing(FirstCodes(), [[b]])
  {
    FirstCodesReady();
    hide FirstCodes;
    var dict := FirstCodes();
    forall c: Byte | c != 0 ensures [c] in dict {
      ReadySingle(dict, 256, c);
    }
    forall w | w in dict && w != [] ensures Holds(dict, [[b]], w) {
      var c: Byte :| w == Single(c);
      ReadySingle(dict, 256, c);
    }
  }

  lemma GainedSame(ps: seq<Text>, qs: seq<Text>, j: nat)
    requires j + 1 < |ps| && j + 1 < |qs| && ps[j] == qs[j] && First(ps[j + 1]) == First(qs[j + 1])
    ensures Gained(ps, j) == Gained(qs, j)
  {
  }

  /** `qs` has the phrases of `ps`, but for the last one, which begins in the same way. */
  ghost predicate Extends(ps: seq<Text>, qs: seq<Text>) {
    && 0 < |ps| <= |qs| && ps[..|ps| - 1] == qs[..|ps| - 1] && First(ps[|ps| - 1]) == First(qs[|ps| - 1])
  }

  lemma ExtendsGained(ps: seq<Text>, qs: seq<Text>)
    requires Extends(ps, qs)
    ensures forall j :: 0 <= j < |ps| - 1 ==> Gained(ps, j) == Gained(qs, j)
  {
    forall j | 0 <= j < |ps| - 1 ensures Gained(ps, j) == Gained(qs, j) {
      assert ps[..|ps| - 1][j] == qs[..|ps| - 1][j];
      if j + 1 < |ps| - 1 {
        assert ps[..|ps| - 1][j + 1] == qs[..|ps| - 1][j + 1];
      }
      GainedSame(ps, qs, j);
    }
  }

  lemma ExtendsCoded(ps: seq<Text>, qs: seq<Text>, codes: seq<nat>, more: seq<nat>)
    requires Extends(ps, qs) && |codes| == |ps| - 1 && Coded(ps, codes, |codes|)
    ensures Coded(qs, codes + more, |codes|)
  {
    ExtendsGained(ps, qs);
    forall k | 0 <= k < |codes| ensures Stands(qs, codes + more, k) && Longest(qs, k) {
      assert Stands(ps, codes, k) && Longest(ps, k);
      assert ps[..|ps| - 1][k] == qs[..|ps| - 1][k];
      hide Gained;
    }
  }

  /** One byte more for the phrase under way. */
  lemma Longer(dict: Codes, ps: seq<Text>, codes: seq<nat>, z: Byte)
    requires Growing(dict, ps) && |codes| == |ps| - 1 && Coded(ps, codes, |codes|) && z != 0
    requires ps[|ps| - 1] + [z] in dict
    ensures var qs := ps[|ps| - 1 := ps[|ps| - 1] + [z]];
            Growing(dict, qs) && Coded(qs, codes, |codes|) && Extends(ps, qs)
  {
    var qs := ps[|ps| - 1 := ps[|ps| - 1] + [z]];
    assert Extends(ps, qs);
    ExtendsGained(ps, qs);
    ExtendsCoded(ps, qs, codes, []);
    assert codes + [] == codes;
    hide Gained, Coded;
    forall w | w in dict && w != [] ensures Holds(dict, qs, w) {
      assert Holds(dict, ps, w);
    }
  }

  /** The phrase under way gets its code, and the next one begins. */
  lemma NextPhrase(dict: Codes, ps: seq<Text>, codes: seq<nat>, z: Byte)
    requires Growing(dict, ps) && |codes| == |ps| - 1 && Coded(ps, codes, |codes|) && z != 0
    requires ps[|ps| - 1] + [z] !in dict
    ensures var s := ps[|ps| - 1];
            && Growing(dict[s + [z] := 256 + |codes|], ps + [[z]]) && Coded(ps + [[z]], codes + [dict[s]], |codes| + 1)
  {
    var s, qs := ps[|ps| - 1], ps + [[z]];
    var t, codes' := s + [z], codes + [dict[s]];
    var dict' := dict[t := 256 + |codes|];
    assert Extends(ps, qs);
    ExtendsGained(ps, qs);
    ExtendsCoded(ps, qs, codes, [dict[s]]);
    assert Gained(qs, |codes|) == t;
    LastStands(dict, ps, codes);
    hide Gained, Coded;
    forall w | w in dict' && w != [] ensures Holds(dict', qs, w) {
      if w != t {
        assert Holds(dict, ps, w);
      }
    }
    assert Growing(dict', qs);
    assert Longest(qs, |codes|);
    StandsMore(ps, qs, codes');
    CodedNext(qs, codes', |codes|);
  }

  lemma LastStands(dict: Codes, ps: seq<Text>, codes: seq<nat>)
    requires Growing(dict, ps) && |codes| == |ps| - 1
    ensures Stands(ps, codes + [dict[ps[|ps| - 1]]], |codes|)
  {
    var s := ps[|ps| - 1];
    assert Holds(dict, ps, s);
  }

  lemma StandsMore(ps: seq<Text>, qs: seq<Text>, codes: seq<nat>)
    requires Extends(ps, qs) && |codes| == |ps| && qs[|ps| - 1] == ps[|ps| - 1] && Stands(ps, codes, |ps| - 1)
    ensures Stands(qs, codes, |ps| - 1)
  {
    ExtendsGained(ps, qs);
    hide Gained;
  }

  lemma CodedNext(ps: seq<Text>, codes: seq<nat>, n: nat)
    requires n < |ps| && n < |codes| && Coded(ps, codes, n) && Stands(ps, codes, n)
    requires n + 1 < |ps| ==> Longest(ps, n)
    ensures Coded(ps, codes, n + 1)
  {
  }

  lemma {:induction false} FromHere(dict: Codes, ps: seq<Text>, codes: seq<nat>, x: Text) returns (qs: seq<Text>)
    requires Growing(dict, ps) && |codes| == |ps| - 1 && Coded(ps, codes, |codes|) && NoNul(x)
    ensures IsLzw(Concat(ps) + x, qs, codes + Encode(dict, 256 + |codes|, ps[|ps| - 1], x))
    decreases |x|
  {
    hide *;
    var s := ps[|ps| - 1];
    LastOf(dict, ps);
    if x == [] {
      EncodeEnd(dict, 256 + |codes|, s);
      AllCoded(dict, ps, codes);
      assert Concat(ps) + x == Concat(ps);
      qs := ps;
    } else {
      var z, t := x[0], s + [x[0]];
      NoNulStep(s, x);
      EncodeStep(dict, 256 + |codes|, s, x);
      if t in dict {
        Longer(dict, ps, codes, z);
        var ps' := ps[|ps| - 1 := t];
        ConcatLast(ps, x);
        qs := FromHere(dict, ps', codes, x[1..]);
      } else {
        NextPhrase(dict, ps, codes, z);
        ConcatMore(ps, x);
        var dict' := dict[t := 256 + |codes|];
        qs := FromHere(dict', ps + [[z]], codes + [dict[s]], x[1..]);
        Associates(codes, [dict[s]], Encode(dict', 256 + |codes| + 1, [z], x[1..]));
      }
    }
  }

  lemma LastOf(dict: Codes, ps: seq<Text>)
    requires Growing(dict, ps)
    ensures ps != [] && ps[|ps| - 1] in dict && NoNul(ps[|ps| - 1])
  {
  }

  lemma NoNulStep(s: Text, x: Text)
    requires NoNul(s) && NoNul(x) && x != []
    ensures x[0] != 0 && NoNul(s + [x[0]]) && NoNul(x[1..])
  {
  }

  lemma EncodeEnd(dict: Codes, next: nat, s: Text)
    requires NoNul(s) && s in dict
    ensures Encode(dict, next, s, []) == [dict[s]]
  {
    CStrOfText(s);
  }

  lemma EncodeStep(dict: Codes, next: nat, s: Text, x: Text)
    requires x != [] && NoNul(s + [x[0]]) && NoNul(s) && s in dict
    ensures var t := s + [x[0]];
            Encode(dict, next, s, x) ==
            if t in dict then Encode(dict, next, t, x[1..])
            else [dict[s]] + Encode(dict[t := next], next + 1, [x[0]], x[1..])
  {
    var t := s + [x[0]];
    CStrOfText(s);
    CStrOfText(t);
    assert s != t;
  }

  lemma AllCoded(dict: Codes, ps: seq<Text>, codes: seq<nat>)
    requires Growing(dict, ps) && |codes| == |ps| - 1 && Coded(ps, codes, |codes|)
    ensures IsLzw(Concat(ps), ps, codes + [dict[ps[|ps| - 1]]])
  {
    hide Coded, Stands, Concat;
    var all := codes + [dict[ps[|ps| - 1]]];
    LastStands(dict, ps, codes);
    ExtendsCoded(ps, ps, codes, [dict[ps[|ps| - 1]]]);
    CodedNext(ps, all, |codes|);
  }

  lemma ConcatLast(ps: seq<Text>, x: Text)
    requires ps != [] && x != []
    ensures var t := ps[|ps| - 1] + [x[0]]; Concat(ps[|ps| - 1 := t]) + x[1..] == Concat(ps) + x
  {
    hide Concat;
    var front, s := ps[..|ps| - 1], ps[|ps| - 1];
    assert ps == front + [s] && ps[|ps| - 1 := s + [x[0]]] == front + [s + [x[0]]];
    ConcatSnoc(front, s);
    ConcatSnoc(front, s + [x[0]]);
  }

  lemma ConcatMore(ps: seq<Text>, x: Text)
    requires x != []
    ensures Concat(ps + [[x[0]]]) + x[1..] == Concat(ps) + x
  {
    ConcatSnoc(ps, [x[0]]);
    hide Concat;
  }

  /** The codes of a text are those of its longest phrases. */
  lemma CodesArePhrases(x: Text)
    requires NoNul(x) && x != []
    ensures exists ps: seq<Text> :: IsLzw(x, ps, CompressCodes(x))
  {
    hide Coded, FirstCodes, Growing;
    FirstPhrase(x);
    FirstGrowing(x[0]);
    var ps: seq<Text> := [[x[0]]];
    assert Coded(ps, [], 0) by { NothingCoded(ps); }
    var qs := FromHere(FirstCodes(), ps, [], x[1..]);
    assert Concat(ps) == [x[0]] by { assert ps[1..] == []; }
    assert Concat(ps) + x[1..] == x;
    assert [] + CompressCodes(x) == CompressCodes(x);
  }

  lemma NothingCoded(ps: seq<Text>)
    ensures Coded(ps, [], 0)
  {
  }

  // ---------- there is no other way to cut the text ----------

  /** Whatever a phrase begins with, and is longer than a byte, was gained before. */
  lemma {:induction false} BeginningGained(ps: seq<Text>, codes: seq<nat>, k: nat, n: nat) returns (j: nat)
    requires |ps| == |codes| && NonEmpty(ps) && Coded(ps, codes, |ps|) && k < |ps| && 2 <= n <= |ps[k]|
    ensures j < k && Gained(ps, j) == ps[k][..n]
    decreases k
  {
    assert Stands(ps, codes, k);
    j :| 0 <= j < k && ps[k] == Gained(ps, j);
    if n < |ps[k]| {
      assert ps[k][..n] == ps[j][..n];
      j := BeginningGained(ps, codes, j, n);
    } else {
      assert ps[k][..n] == ps[k];
    }
  }

  lemma {:induction false} ConcatTail(ps: seq<Text>, k: nat)
    requires k < |ps|
    ensures Concat(ps) == Concat(ps[..k]) + (ps[k] + Concat(ps[k + 1..]))
  {
    if k == 0 {
      assert ps[..0] == [];
    } else {
      ConcatTail(ps[1..], k - 1);
      assert ps[1..][..k - 1] == ps[..k][1..] && ps[1..][k - 1 + 1..] == ps[k + 1..];
      assert ps[..k][0] == ps[0];
      Associates(ps[0], Concat(ps[..k][1..]), ps[k] + Concat(ps[k + 1..]));
    }
  }

  lemma {:induction false} ConcatFirst(ps: seq<Text>)
    requires NonEmpty(ps) && Concat(ps) != []
    ensures ps != [] && First(ps[0]) == Concat(ps)[0]
  {
  }

  lemma SamePhrase(x: Text, ps: seq<Text>, codes: seq<nat>, qs: seq<Text>, codes': seq<nat>, k: nat)
    requires IsLzw(x, ps, codes) && IsLzw(x, qs, codes') && k < |ps| && k < |qs| && ps[..k] == qs[..k]
    ensures |ps[k]| >= |qs[k]|
  {
    hide Coded, Concat, Gained, Stands;
    ConcatTail(ps, k);
    ConcatTail(qs, k);
    var a, b := ps[k] + Concat(ps[k + 1..]), qs[k] + Concat(qs[k + 1..]);
    assert a == x[|Concat(ps[..k])|..] == b;
    var n := |ps[k]|;
    if n < |qs[k]| {
      assert Concat(ps[k + 1..]) == b[n..];
      assert Concat(ps[k + 1..])[0] == b[n] == qs[k][n];
      ConcatFirst(ps[k + 1..]);
      assert ps[k] == qs[k][..n] by { assert ps[k] == a[..n] && qs[k][..n] == b[..n]; }
      assert Gained(ps, k) == qs[k][..n + 1] by { ByGained(ps, qs, k, n); }
      var j := BeginningGained(qs, codes', k, n + 1);
      assert ps[k][0] == a[0] && qs[k][0] == b[0];
      forall i | 0 <= i < k ensures ps[i] == qs[i] {
        assert ps[i] == ps[..k][i] && qs[i] == qs[..k][i];
      }
      GainedSame(ps, qs, j);
      IsLongest(ps, codes, k);
    }
  }

  lemma ByGained(ps: seq<Text>, qs: seq<Text>, k: nat, n: nat)
    requires k + 1 < |ps| && k < |qs| && n < |qs[k]| && ps[k] == qs[k][..n] && First(ps[k + 1]) == qs[k][n]
    ensures Gained(ps, k) == qs[k][..n + 1]
  {
  }

  lemma IsLongest(ps: seq<Text>, codes: seq<nat>, k: nat)
    requires |ps| == |codes| && k + 1 < |ps| && Coded(ps, codes, |ps|)
    ensures Longest(ps, k)
  {
  }

  lemma {:induction false} SamePhrases(x: Text, ps: seq<Text>, codes: seq<nat>, qs: seq<Text>, codes': seq<nat>, n: nat)
    requires IsLzw(x, ps, codes) && IsLzw(x, qs, codes') && n <= |ps| && n <= |qs|
    ensures ps[..n] == qs[..n]
  {
    hide IsLzw;
    if n > 0 {
      var k := n - 1;
      SamePhrases(x, ps, codes, qs, codes', k);
      SamePhrase(x, ps, codes, qs, codes', k);
      SamePhrase(x, qs, codes', ps, codes, k);
      SameText(x, ps, codes, qs, codes', k);
      assert ps[..n] == ps[..k] + [ps[k]] && qs[..n] == qs[..k] + [qs[k]];
    }
  }

  lemma SameText(x: Text, ps: seq<Text>, codes: seq<nat>, qs: seq<Text>, codes': seq<nat>, k: nat)
    requires IsLzw(x, ps, codes) && IsLzw(x, qs, codes') && k < |ps| && k < |qs|
    requires ps[..k] == qs[..k] && |ps[k]| == |qs[k]|
    ensures ps[k] == qs[k]
  {
    hide Coded, Concat;
    ConcatTail(ps, k);
    ConcatTail(qs, k);
    var a, b := ps[k] + Concat(ps[k + 1..]), qs[k] + Concat(qs[k + 1..]);
    assert a == x[|Concat(ps[..k])|..] == b;
    assert ps[k] == a[..|ps[k]|] && qs[k] == b[..|qs[k]|];
  }

  lemma SameLength(x: Text, ps: seq<Text>, codes: seq<nat>, qs: seq<Text>, codes': seq<nat>)
    requires IsLzw(x, ps, codes) && IsLzw(x, qs, codes') && |ps| <= |qs|
    ensures ps == qs
  {
    SamePhrases(x, ps, codes, qs, codes', |ps|);
    hide Coded, Concat;
    assert ps[..|ps|] == ps;
    if |ps| < |qs| {
      ConcatTail(qs, |ps|);
    } else {
      assert qs[..|ps|] == qs;
    }
  }

  lemma SameCode(ps: seq<Text>, codes: seq<nat>, codes': seq<nat>, k: nat)
    requires |ps| == |codes| == |codes'| && NonEmpty(ps) && Coded(ps, codes, |ps|) && Coded(ps, codes', |ps|)
    requires k < |ps|
    ensures codes[k] == codes'[k]
  {
    assert Stands(ps, codes, k) && Stands(ps, codes', k);
    if |ps[k]| != 1 {
      var i :| 0 <= i < k && ps[k] == Gained(ps, i) && codes[k] == 256 + i;
      var j :| 0 <= j < k && ps[k] == Gained(ps, j) && codes'[k] == 256 + j;
      assert Longest(ps, i) && Longest(ps, j);
      assert i >= j && j >= i;
    }
  }

  /** There is just one way to cut a text like that: the codes of the encoder are the ones described. */
  lemma CodesIff(x: Text, codes: seq<nat>)
    requires NoNul(x) && x != []
    ensures codes == CompressCodes(x) <==> exists ps: seq<Text> :: IsLzw(x, ps, codes)
  {
    hide CompressCodes, Coded;
    CodesArePhrases(x);
    if qs :| IsLzw(x, qs, codes) {
      var ps :| IsLzw(x, ps, CompressCodes(x));
      if |ps| <= |qs| {
        SameLength(x, ps, CompressCodes(x), qs, codes);
      } else {
        SameLength(x, qs, codes, ps, CompressCodes(x));
      }
      forall k | 0 <= k < |ps| ensures codes[k] == CompressCodes(x)[k] {
        SameCode(ps, codes, CompressCodes(x), k);
      }
    }
  }

  /** Repeats are coded in fewer codes than bytes: "aaaa" as "a", "aa", "a". */
  lemma RepeatsAreShort()
    ensures CompressCodes([97, 97, 97, 97]) == [97, 256, 97]
  {
    hide CompressCodes;
    var x: Text, ps: seq<Text> := [97, 97, 97, 97], [[97], [97, 97], [97]];
    var codes: seq<nat> := [97, 256, 97];
    assert Concat(ps) == x by {
      assert ps[1..] == [[97, 97], [97]] && ps[1..][1..] == [[97]] && ps[1..][1..][1..] == [];
    }
    assert Gained(ps, 0) == [97, 97] && Gained(ps, 1) == [97, 97, 97];
    assert Stands(ps, codes, 0) && Stands(ps, codes, 1) && Stands(ps, codes, 2);
    assert IsLzw(x, ps, codes);
    CodesIff(x, codes);
  }

  // ---------- what the decoder makes of any codes ----------

  /** The entry before entry `k`, and the first byte of an entry. */
  function Before(es: seq<Text>, k: nat): Text
    requires k <= |es|
  {
    if k == 0 then [] else es[k - 1]
  }

  function Start(e: Text): Text { if e == [] then [] else [e[0]] }

  /** The entry that the code `c` stands for in place `k`: a byte, an earlier entry with the first byte of the
      next one, or, if the code comes too early, the previous entry with its own first byte. */
  function Meant(es: seq<Text>, k: nat, c: nat): Text
    requires k <= |es|
  {
    if c == 0 then []
    else if c < 255 || (c == 255 && k == 0) then [c]
    else if c - 255 < k then Before(es, c - 255) + Start(es[c - 255])
    else Before(es, k) + Start(Before(es, k))
  }

  /** The decoder's table before it reads the code in place `|es|`. */
  ghost predicate Knows(table: Entries, es: seq<Text>) {
    && (forall c :: c in table <==> 0 <= c < 255 + if es == [] then 1 else |es|)
    && (forall c :: c in table ==> table[c] == Meant(es, |es|, c))
    && (forall k :: 0 <= k < |es| ==> NoNul(es[k]))
  }

  lemma FirstKnows()
    ensures Knows(FirstEntries(), [])
  {
    forall c: nat | c < 256 ensures FirstEntries()[c] == Meant([], 0, c) {
      SingleKey(c);
    }
  }

  lemma EntryIsMeant(table: Entries, es: seq<Text>, c: nat)
    requires Knows(table, es)
    ensures Entry(table, Before(es, |es|), c) == Meant(es, |es|, c) && NoNul(Meant(es, |es|, c))
  {
    var s := Before(es, |es|);
    CStrOfText(s);
    NoNulMeant(es, c);
    CStrOfText(s + Start(s));
    if s == [] {
      SingleKey(0);
      assert s + [First(s)] == [0] && s + Start(s) == [];
    }
  }

  lemma NoNulMeant(es: seq<Text>, c: nat)
    requires forall k :: 0 <= k < |es| ==> NoNul(es[k])
    ensures NoNul(Meant(es, |es|, c)) && NoNul(Before(es, |es|) + Start(Before(es, |es|)))
  {
    assert forall k :: 0 <= k <= |es| ==> NoNul(Before(es, k));
  }

  /** What the decoder puts into its table. */
  lemma {:induction false} KeyCut(s: Text, e: Text)
    requires NoNul(s) && NoNul(e)
    ensures CStr(s + [First(e)]) == s + Start(e)
  {
    if s != [] {
      KeyCut(s[1..], e);
      assert (s + [First(e)])[0] == s[0] && (s + [First(e)])[1..] == s[1..] + [First(e)];
    } else {
      assert s + [First(e)] == [First(e)];
      SingleKey(First(e));
    }
  }

  lemma KnowsNext(table: Entries, es: seq<Text>, e: Text)
    requires Knows(table, es) && NoNul(e)
    ensures Knows(table[255 + |es| := CStr(Before(es, |es|) + [First(e)])], es + [e])
  {
    var n, es' := |es|, es + [e];
    KeyCut(Before(es, n), e);
    hide CStr;
    var table' := table[255 + n := Before(es, n) + Start(e)];
    forall c | c in table' ensures table'[c] == Meant(es', n + 1, c) {
      if c != 255 + n {
        assert Meant(es, n, c) == Meant(es', n + 1, c);
      }
    }
  }

  /** The entries, one for each code. */
  ghost predicate AreMeant(es: seq<Text>, codes: seq<nat>) {
    |es| == |codes| && forall k :: 0 <= k < |es| ==> es[k] == Meant(es[..k], k, codes[k])
  }

  lemma {:induction false} DecodeFrom(table: Entries, es: seq<Text>, codes: seq<nat>, i: nat) returns (all: seq<Text>)
    requires i <= |codes| && |es| == i && Knows(table, es) && AreMeant(es, codes[..i])
    ensures AreMeant(all, codes)
    ensures Concat(all) == Concat(es) + Decode(table, 255 + i, Before(es, i), codes[i..])
    decreases |codes| - i
  {
    hide CStr, Entry, Knows, Meant;
    if i == |codes| {
      all := es;
      assert codes[..i] == codes;
      assert Concat(es) + [] == Concat(es);
    } else {
      var e := Meant(es, i, codes[i]);
      EntryIsMeant(table, es, codes[i]);
      KnowsNext(table, es, e);
      var table' := table[255 + i := CStr(Before(es, i) + [First(e)])];
      MeantNext(es, codes, i);
      assert codes[i..][0] == codes[i] && codes[i..][1..] == codes[i + 1..];
      all := DecodeFrom(table', es + [e], codes, i + 1);
      ConcatSnoc(es, e);
      Associates(Concat(es), e, Decode(table', 256 + i, e, codes[i + 1..]));
    }
  }

  lemma MeantNext(es: seq<Text>, codes: seq<nat>, i: nat)
    requires i < |codes| && |es| == i && AreMeant(es, codes[..i])
    ensures AreMeant(es + [Meant(es, i, codes[i])], codes[..i + 1])
  {
    hide Meant;
    var es' := es + [Meant(es, i, codes[i])];
    forall k | 0 <= k < |es'| ensures es'[k] == Meant(es'[..k], k, codes[..i + 1][k]) {
      if k < i {
        assert es'[..k] == es[..k] && codes[..i][k] == codes[..i + 1][k];
      } else {
        assert es'[..k] == es;
      }
    }
  }

  /** The text that the decoder makes of any codes, those that no encoder writes too. */
  lemma DecodedIs(codes: seq<nat>)
    ensures exists es: seq<Text> :: AreMeant(es, codes) && Concat(es) == DecompressCodes(codes)
  {
    hide Knows, FirstEntries, AreMeant, Decode;
    FirstKnows();
    assert AreMeant([], codes[..0]) by { NothingMeant(); }
    var es := DecodeFrom(FirstEntries(), [], codes, 0);
    assert codes[0..] == codes;
    assert Concat<Byte>([]) + DecompressCodes(codes) == DecompressCodes(codes);
  }

  lemma NothingMeant()
    ensures AreMeant([], [])
  {
  }
}
