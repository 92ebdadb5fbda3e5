/** The substring search of utstring.h: Knuth-Morris-Pratt with the optimised failure table, in both directions. */
module Kmp {
  import opened Common

  // ---------- borders ----------

  /** The first `b` bytes of the needle are also the last `b` of its first `i`. */
  predicate Border(p: Bytes, i: nat, b: int) { 0 <= b < i <= |p| && p[..b] == p[i - b..i] }

  /** A border after which the needle goes on differently: worth trying when byte `i` did not match. */
  predicate Useful(p: Bytes, i: nat, b: int) { Border(p, i, b) && (i < |p| ==> p[b] != p[i]) }

  /** The longest useful border of at most `b` bytes, or -1. */
  function FailUpTo(p: Bytes, i: nat, b: int): (t: int)
    requires -1 <= b < i <= |p| || (b == -1 && i == 0)
    ensures -1 <= t <= b
  {
    if b == -1 then -1 else if Useful(p, i, b) then b else FailUpTo(p, i, b - 1)
  }

  /** The failure table: the longest useful border for each number of bytes matched, -1 if there is none. */
  function Fail(p: Bytes, i: nat): (t: int)
    requires i <= |p|
    ensures -1 <= t < i
  {
    FailUpTo(p, i, i - 1)
  }

  lemma {:induction false} FailUpToIs(p: Bytes, i: nat, b: int)
    requires -1 <= b < i <= |p| || (b == -1 && i == 0)
    ensures var t := FailUpTo(p, i, b); (t >= 0 ==> Useful(p, i, t)) && forall c :: t < c <= b ==> !Useful(p, i, c)
    decreases b
  {
    if b >= 0 && !Useful(p, i, b) {
      FailUpToIs(p, i, b - 1);
    }
  }

  /** The longest beginning of the first `i` bytes that is an end of them too, and has another byte behind it. */
  lemma FailIs(p: Bytes, i: nat)
    requires i <= |p|
    ensures var t := Fail(p, i);
            && (t == -1 || (0 <= t < i && p[..t] == p[i - t..i] && (i == |p| || p[t] != p[i])))
            && forall c :: t < c < i ==> !(p[..c] == p[i - c..i] && (i == |p| || p[c] != p[i]))
  {
    FailUpToIs(p, i, i - 1);
    forall c | Fail(p, i) < c < i ensures !(p[..c] == p[i - c..i] && (i == |p| || p[c] != p[i])) {
      assert !Useful(p, i, c);
    }
  }

  lemma {:induction false} FailUpToUnique(p: Bytes, i: nat, b: int, t: int)
    requires -1 <= t <= b && (-1 <= b < i <= |p| || (b == -1 && i == 0))
    requires (t >= 0 ==> Useful(p, i, t)) && forall c :: t < c <= b ==> !Useful(p, i, c)
    ensures FailUpTo(p, i, b) == t
    decreases b
  {
    if b > t {
      FailUpToUnique(p, i, b - 1, t);
    }
  }

  /** A border of a border is a border, and borders are nested. */
  lemma Nested(p: Bytes, i: nat, j: nat, b: nat)
    requires Border(p, i, j) && b < j
    ensures Border(p, i, b) <==> Border(p, j, b)
  {
    assert p[i - b..i] == p[i - j..i][j - b..] == p[..j][j - b..] == p[j - b..j];
  }

  /** A border grows by a byte that matches. */
  lemma Grows(p: Bytes, i: nat, b: nat)
    requires b < i < |p|
    ensures Border(p, i + 1, b + 1) <==> Border(p, i, b) && p[b] == p[i]
  {
    assert p[..b + 1] == p[..b] + [p[b]] && p[i - b..i + 1] == p[i - b..i] + [p[i]];
    if p[..b + 1] == p[i - b..i + 1] {
      assert p[..b] == p[..b + 1][..b] == p[i - b..i + 1][..b] == p[i - b..i];
      assert p[b] == p[..b + 1][b] == p[i - b..i + 1][b] == p[i];
    }
  }

  /** The longest border, -1 for no bytes at all. */
  ghost predicate Longest(p: Bytes, i: nat, j: int)
  {
    && -1 <= j < i <= |p| && (i == 0 <==> j == -1)
    && (j >= 0 ==> Border(p, i, j)) && forall b :: j < b < i ==> !Border(p, i, b)
  }

  /** Every border that byte `i` could prolong is at most `j` long. */
  ghost predicate Candidate(p: Bytes, i: nat, j: int)
  {
    && -1 <= j < i < |p| && (j >= 0 ==> Border(p, i, j))
    && forall b :: j < b < i && Border(p, i, b) ==> p[b] != p[i]
  }

  /** A step along the table skips no border that could be prolonged. */
  lemma FallBack(p: Bytes, i: nat, j: nat)
    requires Candidate(p, i, j) && p[i] != p[j]
    ensures Candidate(p, i, Fail(p, j)) && Fail(p, j) < j
  {
    var t := Fail(p, j);
    FailIs(p, j);
    if t >= 0 {
      Nested(p, i, j, t);
    }
    forall b | t < b < i && Border(p, i, b) ensures p[b] != p[i] {
      if b < j {
        Nested(p, i, j, b);
        assert !Useful(p, j, b);
      }
    }
  }

  /** The longest border of one byte more. */
  lemma LongestGrows(p: Bytes, i: nat, j: int)
    requires i < |p| && (i > 0 ==> Candidate(p, i, j)) && (i == 0 ==> j == -1) && (j >= 0 ==> p[i] == p[j])
    ensures Longest(p, i + 1, j + 1)
  {
    if j >= 0 {
      Grows(p, i, j);
    } else {
      assert p[..0] == p[i + 1..i + 1];
    }
    var n := i + 1;
    forall b | j + 1 < b < n ensures !Border(p, n, b) {
      Grows(p, i, b - 1);
    }
  }

  /** The entry of the table that follows from the longest border. */
  lemma EntryIs(p: Bytes, i: nat, j: nat)
    requires 0 < i <= |p| && Longest(p, i, j)
    ensures Fail(p, i) == if i < |p| && p[i] == p[j] then Fail(p, j) else j
  {
    if i < |p| && p[i] == p[j] {
      var t := Fail(p, j);
      FailIs(p, j);
      if t >= 0 {
        Nested(p, i, j, t);
      }
      forall c | t < c < i ensures !Useful(p, i, c) {
        if c < j {
          Nested(p, i, j, c);
          assert !Useful(p, j, c);
        }
      }
      FailUpToUnique(p, i, i - 1, t);
    } else {
      FailUpToUnique(p, i, i - 1, j);
    }
  }

  lemma NoBorder(p: Bytes)
    ensures Fail(p, 0) == -1 && Longest(p, 0, -1)
  {
  }

  lemma LongestIsCandidate(p: Bytes, i: nat, j: int)
    requires 0 < i < |p| && Longest(p, i, j)
    ensures Candidate(p, i, j)
  {
  }

  /** _utstring_BuildTable */
  method BuildTable(needle: Bytes, table: array<int>)
    requires needle != [] && table.Length == |needle| + 1
    modifies table
    ensures forall k :: 0 <= k <= |needle| ==> table[k] == Fail(needle, k)
  {
    hide Fail, Border, Useful;
    var i := 0;
    var j := i - 1;
    NoBorder(needle);
    table[i] := j;
    while i < |needle|
      invariant 0 <= i <= |needle| && Longest(needle, i, j)
      invariant forall k :: 0 <= k <= i ==> table[k] == Fail(needle, k)
    {
      while j > -1 && needle[i] != needle[j]
        invariant -1 <= j < i || (i == 0 && j == -1)
        invariant i > 0 ==> Candidate(needle, i, j)
        invariant forall k :: 0 <= k <= i ==> table[k] == Fail(needle, k)
        decreases j + 1
      {
        FallBack(needle, i, j);
        j := table[j];
      }
      LongestGrows(needle, i, j);
      i := i + 1;
      j := j + 1;
      if i < |needle| {
        LongestIsCandidate(needle, i, j);
      }
      EntryIs(needle, i, j);
      if i < |needle| {
        if needle[i] == needle[j] {
          table[i] := table[j];
        } else {
          table[i] := j;
        }
      } else {
        table[i] := j;
      }
    }
  }

  // ---------- search ----------

  predicate OccursAt(hay: Bytes, needle: Bytes, s: int) { 0 <= s <= |hay| - |needle| && hay[s..s + |needle|] == needle }

  /** The first `i` bytes of the needle end at `j`, and no occurrence starts earlier. */
  ghost predicate Matched(hay: Bytes, needle: Bytes, i: int, j: nat)
  {
    && -1 <= i <= |needle| && i <= j <= |hay| && (i >= 0 ==> needle[..i] == hay[j - i..j])
    && forall s :: s < j - i ==> !OccursAt(hay, needle, s)
  }

  /** A step along the table skips no occurrence. */
  lemma Skip(hay: Bytes, needle: Bytes, i: nat, j: nat)
    requires Matched(hay, needle, i, j) && i < |needle| && j < |hay| && needle[i] != hay[j]
    ensures Matched(hay, needle, Fail(needle, i), j)
  {
    var t := Fail(needle, i);
    FailIs(needle, i);
    if t >= 0 {
      assert needle[..t] == needle[i - t..i] == needle[..i][i - t..] == hay[j - i..j][i - t..] == hay[j - t..j];
    }
    forall s | j - i <= s < j - t ensures !OccursAt(hay, needle, s) {
      NotHere(hay, needle, i, j, s);
      assert !Useful(needle, i, j - s);
    }
  }

  /** An occurrence from `s` would make a useful border, longer than the table has it. */
  lemma NotHere(hay: Bytes, needle: Bytes, i: nat, j: nat, s: int)
    requires Matched(hay, needle, i, j) && i < |needle| && j < |hay| && needle[i] != hay[j]
    requires j - i <= s <= j
    ensures OccursAt(hay, needle, s) ==> s > j - i && Useful(needle, i, j - s)
  {
    if OccursAt(hay, needle, s) {
      var b := j - s;
      assert needle[b] == hay[s..s + |needle|][b] == hay[j];
      assert needle[..b] == hay[s..s + |needle|][..b] == hay[s..j];
      assert hay[s..j] == hay[j - i..j][i - b..] == needle[..i][i - b..] == needle[i - b..i];
    }
  }

  /** _utstring_find: the first occurrence, or -1; the steps along the table are no more than the bytes passed. */
  method FindFirst(hay: Bytes, needle: Bytes, table: array<int>) returns (pos: int, ghost steps: nat)
    requires needle != [] && table.Length == |needle| + 1
    requires forall k :: 0 <= k <= |needle| ==> table[k] == Fail(needle, k)
    ensures pos == -1 || OccursAt(hay, needle, pos)
    ensures forall s :: OccursAt(hay, needle, s) ==> 0 <= pos <= s
    ensures steps <= |hay|
  {
    hide OccursAt, Fail;
    pos := -1;
    steps := 0;
    var i, j := 0, 0;
    MatchedNone(hay, needle);
    while j < |hay| && |hay| - j + i >= |needle|
      invariant 0 <= i < |needle| && Matched(hay, needle, i, j) && pos == -1
      invariant steps + i <= j
      decreases |hay| - j
    {
      while i > -1 && needle[i] != hay[j]
        invariant -1 <= i < |needle| && Matched(hay, needle, i, j) && steps + i <= j
        decreases i + 1
      {
        Skip(hay, needle, i, j);
        i := table[i];
        steps := steps + 1;
      }
      MatchedMore(hay, needle, i, j);
      i := i + 1;
      j := j + 1;
      if i >= |needle| {
        pos := j - i;
        FoundFirst(hay, needle, i, j);
        break;
      }
    }
    if pos == -1 {
      NoneLeft(hay, needle, i, j);
    }
  }

  lemma MatchedNone(hay: Bytes, needle: Bytes)
    ensures Matched(hay, needle, 0, 0)
  {
  }

  lemma MatchedMore(hay: Bytes, needle: Bytes, i: int, j: nat)
    requires Matched(hay, needle, i, j) && i < |needle| && j < |hay| && (i >= 0 ==> needle[i] == hay[j])
    ensures Matched(hay, needle, i + 1, j + 1)
  {
    if i >= 0 {
      assert needle[..i + 1] == needle[..i] + [needle[i]] && hay[j - i..j + 1] == hay[j - i..j] + [hay[j]];
    }
  }

  lemma FoundFirst(hay: Bytes, needle: Bytes, i: int, j: nat)
    requires Matched(hay, needle, i, j) && i == |needle|
    ensures OccursAt(hay, needle, j - i) && forall s :: OccursAt(hay, needle, s) ==> j - i <= s
  {
    assert needle[..i] == needle;
  }

  lemma NoneLeft(hay: Bytes, needle: Bytes, i: int, j: nat)
    requires Matched(hay, needle, i, j) && (j >= |hay| || |hay| - j + i < |needle|) && i < |needle|
    ensures forall s :: !OccursAt(hay, needle, s)
  {
  }

  // ---------- right to left ----------

  function Rev(s: Bytes): (r: Bytes)
    ensures |r| == |s|
  {
    seq(|s|, k requires 0 <= k < |s| => s[|s| - 1 - k])
  }

  lemma RevAt(s: Bytes, k: int)
    requires 0 <= k < |s|
    ensures Rev(s)[|s| - 1 - k] == s[k]
  {
  }

  /** The table of the search from right to left is that of the reversed needle, counted from the other end. */
  ghost predicate TableR(needle: Bytes, table: seq<int>, from: nat)
  {
    |table| == |needle| + 1 && forall k :: from <= k <= |needle| ==>
      table[k] == |needle| - 1 - Fail(Rev(needle), |needle| - k)
  }

  lemma LongestRange(p: Bytes, i: nat, j: int)
    requires Longest(p, i, j)
    ensures -1 <= j < i <= |p| && (i == 0 <==> j == -1)
  {
  }

  /** _utstring_BuildTableR */
  method BuildTableR(needle: Bytes, table: array<int>)
    requires needle != [] && table.Length == |needle| + 1
    modifies table
    ensures TableR(needle, table[..], 0)
  {
    hide Fail, Border, Useful, Rev, Longest, Candidate, TableR;
    ghost var p, n := Rev(needle), |needle|;
    var i := |needle| - 1;
    var j := i + 1;
    NoBorder(p);
    table[i + 1] := j;
    FirstEntryR(needle, table[..]);
    while i >= 0
      invariant -1 <= i < n && Longest(p, n - 1 - i, n - 1 - j)
      invariant TableR(needle, table[..], i + 1)
      decreases i + 1
    {
      LongestRange(p, n - 1 - i, n - 1 - j);
      if i < n - 1 {
        LongestIsCandidate(p, n - 1 - i, n - 1 - j);
      }
      while j < |needle| && needle[i] != needle[j]
        invariant i < j <= n && (i == n - 1 ==> j == n)
        invariant i < n - 1 ==> Candidate(p, n - 1 - i, n - 1 - j)
        invariant TableR(needle, table[..], i + 1)
        decreases n - j
      {
        RevAt(needle, i);
        RevAt(needle, j);
        FallBack(p, n - 1 - i, n - 1 - j);
        EntryR(needle, table[..], i + 1, j + 1);
        j := table[j + 1];
      }
      RevAt(needle, i);
      if j < n {
        RevAt(needle, j);
      }
      LongestGrows(p, n - 1 - i, n - 1 - j);
      i := i - 1;
      j := j - 1;
      LongestRange(p, n - 1 - i, n - 1 - j);
      SetEntryR(needle, table, i, j);
    }
  }

  /** The entry of the reverse table that follows from the longest border. */
  method SetEntryR(needle: Bytes, table: array<int>, i: int, j: int)
    requires -1 <= i < j < |needle| && TableR(needle, table[..], i + 2)
    requires Longest(Rev(needle), |needle| - 1 - i, |needle| - 1 - j)
    modifies table
    ensures TableR(needle, table[..], i + 1)
  {
    hide Fail, Border, Useful, Rev, Longest, TableR;
    ghost var n, was := |needle|, table[..];
    EntryIs(Rev(needle), n - 1 - i, n - 1 - j);
    EntryR(needle, was, i + 2, j + 1);
    RevAt(needle, j);
    if i >= 0 {
      RevAt(needle, i);
      if needle[i] == needle[j] {
        table[i + 1] := table[j + 1];
      } else {
        table[i + 1] := j;
      }
    } else {
      table[i + 1] := j;
    }
    NextEntryR(needle, was, i + 1, table[i + 1]);
    assert table[..] == was[i + 1 := table[i + 1]];
  }

  lemma FirstEntryR(needle: Bytes, t: seq<int>)
    requires |t| == |needle| + 1 && t[|needle|] == |needle|
    ensures TableR(needle, t, |needle|)
  {
  }

  lemma EntryR(needle: Bytes, t: seq<int>, from: nat, k: nat)
    requires TableR(needle, t, from) && from <= k <= |needle|
    ensures |t| == |needle| + 1 && t[k] == |needle| - 1 - Fail(Rev(needle), |needle| - k)
  {
  }

  lemma NextEntryR(needle: Bytes, t: seq<int>, from: nat, v: int)
    requires TableR(needle, t, from + 1) && from < |needle| && v == |needle| - 1 - Fail(Rev(needle), |needle| - from)
    ensures from < |t| && TableR(needle, t[from := v], from)
  {
  }

  /** _utstring_findR: the last occurrence, or -1. */
  method FindLast(hay: Bytes, needle: Bytes, table: array<int>) returns (pos: int, ghost steps: nat)
    requires needle != [] && TableR(needle, table[..], 0)
    ensures pos == -1 || OccursAt(hay, needle, pos)
    ensures forall s :: OccursAt(hay, needle, s) ==> s <= pos
    ensures steps <= |hay|
  {
    hide OccursAt, Fail, Matched, Rev;
    ghost var p, h, n, m := Rev(needle), Rev(hay), |needle|, |hay|;
    pos := -1;
    steps := 0;
    var j := |hay| - 1;
    var i := |needle| - 1;
    MatchedNone(h, p);
    while j >= 0 && j >= i
      invariant 0 <= i < n && -1 <= j < m && pos == -1
      invariant Matched(h, p, n - 1 - i, m - 1 - j)
      invariant steps + (n - 1 - i) <= m - 1 - j
      decreases j + 1
    {
      while i < |needle| && needle[i] != hay[j]
        invariant 0 <= i <= n && Matched(h, p, n - 1 - i, m - 1 - j) && steps + (n - 1 - i) <= m - 1 - j
        decreases n - i
      {
        RevAt(needle, i);
        RevAt(hay, j);
        Skip(h, p, n - 1 - i, m - 1 - j);
        i := table[i + 1];
        steps := steps + 1;
      }
      RevAt(hay, j);
      if i < n {
        RevAt(needle, i);
      }
      MatchedMore(h, p, n - 1 - i, m - 1 - j);
      i := i - 1;
      j := j - 1;
      if i < 0 {
        pos := j + 1;
        FoundFirst(h, p, n - 1 - i, m - 1 - j);
        break;
      }
    }
    if pos == -1 {
      NoneLeft(h, p, n - 1 - i, m - 1 - j);
    }
    OccursReversed(hay, needle);
  }

  /** An occurrence is one of the reversed needle in the reversed text. */
  lemma OccursReversed(hay: Bytes, needle: Bytes)
    ensures forall s :: OccursAt(hay, needle, s) <==> OccursAt(Rev(hay), Rev(needle), |hay| - |needle| - s)
  {
    forall s ensures OccursAt(hay, needle, s) <==> OccursAt(Rev(hay), Rev(needle), |hay| - |needle| - s) {
      if 0 <= s <= |hay| - |needle| {
        var s', n := |hay| - |needle| - s, |needle|;
        var a, b := hay[s..s + n], Rev(hay)[s'..s' + n];
        assert b == Rev(a);
        if b == Rev(needle) {
          forall k | 0 <= k < n ensures a[k] == needle[k] {
            assert b[n - 1 - k] == Rev(needle)[n - 1 - k];
          }
        }
      }
    }
  }

  // ---------- the two entry points ----------

  /** Where a search starts: a negative position counts from the end. */
  function StartOf(len: nat, start: int): int { if start < 0 then len + start else start }

  /** utstring_find: the first occurrence from a position on, or -1. */
  method Find(s: Bytes, start: int, needle: Bytes) returns (pos: int)
    requires start >= -|s|
    ensures pos == -1 <==> needle == [] || forall k :: k >= StartOf(|s|, start) ==> !OccursAt(s, needle, k)
    ensures pos != -1 ==> pos >= StartOf(|s|, start) && OccursAt(s, needle, pos)
    ensures pos != -1 ==> forall k :: k >= StartOf(|s|, start) && OccursAt(s, needle, k) ==> pos <= k
  {
    pos := -1;
    var from := if start < 0 then |s| + start else start;
    var hayLen := |s| - from;
    if hayLen >= |needle| && |needle| > 0 {
      var table := new int[|needle| + 1];
      BuildTable(needle, table);
      ghost var steps;
      pos, steps := FindFirst(s[from..], needle, table);
      OccursFrom(s, needle, from);
      if pos >= 0 {
        pos := pos + from;
      }
    }
  }

  lemma OccursFrom(s: Bytes, needle: Bytes, from: nat)
    requires from <= |s|
    ensures forall k :: k >= from ==> (OccursAt(s, needle, k) <==> OccursAt(s[from..], needle, k - from))
    ensures forall k :: OccursAt(s[from..], needle, k) ==> OccursAt(s, needle, k + from)
  {
    forall k | k >= from ensures OccursAt(s, needle, k) <==> OccursAt(s[from..], needle, k - from) {
      if k + |needle| <= |s| {
        assert s[from..][k - from..k - from + |needle|] == s[k..k + |needle|];
      }
    }
    forall k | OccursAt(s[from..], needle, k) ensures OccursAt(s, needle, k + from) {
      assert s[from..][k..k + |needle|] == s[k + from..k + from + |needle|];
    }
  }

  /** utstring_findR: the last occurrence that ends at a position or before it, or -1. */
  method FindR(s: Bytes, start: int, needle: Bytes) returns (pos: int)
    requires start < |s|
    ensures var end := StartOf(|s|, start) + 1;
            && (pos == -1 <==> needle == [] || forall k :: k + |needle| <= end ==> !OccursAt(s, needle, k))
            && (pos != -1 ==> pos + |needle| <= end && OccursAt(s, needle, pos))
            && (pos != -1 ==> forall k :: k + |needle| <= end && OccursAt(s, needle, k) ==> k <= pos)
  {
    pos := -1;
    var from := if start < 0 then |s| + start else start;
    var hayLen := from + 1;
    if hayLen >= |needle| && |needle| > 0 {
      var table := new int[|needle| + 1];
      BuildTableR(needle, table);
      ghost var steps;
      pos, steps := FindLast(s[..hayLen], needle, table);
      OccursBefore(s, needle, hayLen);
    }
  }

  lemma OccursBefore(s: Bytes, needle: Bytes, end: nat)
    requires end <= |s|
    ensures forall k :: OccursAt(s[..end], needle, k) <==> k + |needle| <= end && OccursAt(s, needle, k)
  {
    forall k ensures OccursAt(s[..end], needle, k) <==> k + |needle| <= end && OccursAt(s, needle, k) {
      if 0 <= k <= end - |needle| {
        assert s[..end][k..k + |needle|] == s[k..k + |needle|];
      }
    }
  }
}
