/** Where a text stands in another one, and white space in it. */
module JsonPlaces {
  import opened Common
  import opened JsonText

  lemma StartsConcat(t: Bytes, i: nat, a: Bytes, b: Bytes)
    ensures StartsWith(t, i, a + b) <==> StartsWith(t, i, a) && StartsWith(t, i + |a|, b)
  {
    if i + |a + b| <= |t| {
      assert t[i..i + |a + b|] == t[i..i + |a|] + t[i + |a|..i + |a| + |b|];
      if t[i..i + |a + b|] == a + b {
        assert t[i..i + |a|] == (a + b)[..|a|] == a;
        assert t[i + |a|..i + |a| + |b|] == (a + b)[|a|..] == b;
      }
    }
  }

  lemma Starts3(t: Bytes, i: nat, a: Bytes, b: Bytes, c: Bytes)
    requires StartsWith(t, i, a + b + c)
    ensures StartsWith(t, i, a) && StartsWith(t, i + |a|, b) && StartsWith(t, i + |a| + |b|, c)
  {
    hide StartsWith;
    StartsConcat(t, i, a + b, c);
    StartsConcat(t, i, a, b);
  }

  lemma Starts4(t: Bytes, i: nat, a: Bytes, b: Bytes, c: Bytes, d: Bytes)
    requires StartsWith(t, i, a + b + c + d)
    ensures StartsWith(t, i, a) && StartsWith(t, i + |a|, b) && StartsWith(t, i + |a| + |b|, c)
    ensures StartsWith(t, i + |a| + |b| + |c|, d)
  {
    hide StartsWith;
    StartsConcat(t, i, a + b + c, d);
    Starts3(t, i, a, b, c);
  }

  lemma StartsFirst(t: Bytes, i: nat, a: Bytes)
    requires StartsWith(t, i, a) && a != []
    ensures i < |t| && Ch(t, i) == a[0]
  {
    assert t[i..i + |a|][0] == t[i];
  }

  lemma NoSkip(t: Bytes, i: nat)
    requires i <= |t| && (Ch(t, i) == 0 || Ch(t, i) > 32)
    ensures Skip(t, i) == i
  {
  }

  /** White space is skipped. */
  lemma {:induction false} SkipAll(t: Bytes, i: nat, w: Bytes)
    requires StartsWith(t, i, w) && forall k :: 0 <= k < |w| ==> 0 < w[k] <= 32
    ensures Skip(t, i) == Skip(t, i + |w|)
    decreases |w|
  {
    if w != [] {
      StartsFirst(t, i, w);
      StartsConcat(t, i, w[..1], w[1..]);
      assert w == w[..1] + w[1..];
      SkipAll(t, i + 1, w[1..]);
    }
  }

  lemma StartsWithin(t: Bytes, i: nat, a: Bytes)
    requires StartsWith(t, i, a)
    ensures i + |a| <= |t|
  {
  }

  /** White space skipped once is not skipped again. */
  lemma {:induction false} SkipTwice(t: Bytes, i: nat)
    requires i <= |t|
    ensures Skip(t, Skip(t, i)) == Skip(t, i) && (Ch(t, Skip(t, i)) == 0 || Ch(t, Skip(t, i)) > 32)
    ensures Ch(t, i) == Ch(t, Skip(t, i)) || 0 < Ch(t, i) <= 32
    decreases |t| - i
  {
    if 0 < Ch(t, i) <= 32 {
      SkipTwice(t, i + 1);
    }
  }

  lemma WordStarts(t: Bytes, i: nat)
    ensures StartsWith(t, i, NULL_TEXT) ==> Ch(t, i) == 110
    ensures StartsWith(t, i, FALSE_TEXT) ==> Ch(t, i) == 102
    ensures StartsWith(t, i, TRUE_TEXT) ==> Ch(t, i) == 116
  {
    if StartsWith(t, i, NULL_TEXT) {
      StartsFirst(t, i, NULL_TEXT);
    }
    if StartsWith(t, i, FALSE_TEXT) {
      StartsFirst(t, i, FALSE_TEXT);
    }
    if StartsWith(t, i, TRUE_TEXT) {
      StartsFirst(t, i, TRUE_TEXT);
    }
  }

  predicate Space(w: Bytes) { forall k :: 0 <= k < |w| ==> 0 < w[k] <= 32 }

  /** What is skipped is white space. */
  lemma {:induction false} SkipIs(t: Bytes, i: nat)
    requires i <= |t|
    ensures Space(t[i..Skip(t, i)]) && StartsWith(t, i, t[i..Skip(t, i)]) && |t[i..Skip(t, i)]| == Skip(t, i) - i
    decreases |t| - i
  {
    if 0 < Ch(t, i) <= 32 {
      SkipIs(t, i + 1);
      assert t[i..Skip(t, i)] == [t[i]] + t[i + 1..Skip(t, i + 1)];
    }
  }

  lemma StartsOne(t: Bytes, i: nat, c: Byte)
    ensures StartsWith(t, i, [c]) <==> i < |t| && t[i] == c
  {
  }
}
