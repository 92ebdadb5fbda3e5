/** md5.c: the streaming interface, with the block function as a parameter. */
module Md5 {
  import opened Common

  const TWO32: nat := 0x1_0000_0000
  const TWO64: nat := 0x1_0000_0000_0000_0000

  type Word = w: int | 0 <= w < 0x1_0000_0000

  datatype State = State(a: Word, b: Word, c: Word, d: Word)

  const INIT := State(0x67452301, 0xEFCDAB89, 0x98BADCFE, 0x10325476)

  /** MD5Transform, for blocks of 64 bytes. */
  type Transform = (State, Bytes) -> State

  /** The block function over the full blocks of a message. */
  function Fold(f: Transform, s: State, m: Bytes): State
    decreases |m|
  {
    if |m| < 64 then s else Fold(f, f(s, m[..64]), m[64..])
  }

  /** Bytes that fill blocks can be folded in before the rest. */
  lemma {:induction false} FoldConcat(f: Transform, s: State, a: Bytes, b: Bytes)
    requires |a| % 64 == 0
    ensures Fold(f, s, a + b) == Fold(f, Fold(f, s, a), b)
    decreases |a|
  {
    if |a| >= 64 {
      assert (a + b)[..64] == a[..64] && (a + b)[64..] == a[64..] + b;
      FoldConcat(f, f(s, a[..64]), a[64..], b);
    } else {
      assert a == [] && a + b == b;
    }
  }

  lemma FoldShort(f: Transform, s: State, a: Bytes, b: Bytes)
    requires |a| % 64 == 0 && |b| < 64
    ensures Fold(f, s, a + b) == Fold(f, s, a)
  {
    FoldConcat(f, s, a, b);
  }

  lemma FoldOne(f: Transform, s: State, block: Bytes)
    requires |block| == 64
    ensures Fold(f, s, block) == f(s, block)
  {
    assert block[..64] == block && block[64..] == [];
  }

  // ---------- words and bytes ----------

  /** MD5Encode, for one word: the low byte first. */
  function EncodeWord(w: Word): (b: Bytes)
    ensures |b| == 4
  {
    [w % 256, w / 256 % 256, w / 65536 % 256, w / 16777216 % 256]
  }

  /** MD5Decode, for one word. */
  function DecodeWord(b: Bytes): Word
    requires |b| == 4
  {
    b[0] as int + b[1] as int * 256 + b[2] as int * 65536 + b[3] as int * 16777216
  }

  function EncodeWords(ws: seq<Word>): (b: Bytes)
    ensures |b| == 4 * |ws|
  {
    if ws == [] then [] else EncodeWord(ws[0]) + EncodeWords(ws[1..])
  }

  function DecodeWords(b: Bytes): (ws: seq<Word>)
    requires |b| % 4 == 0
  {
    if b == [] then [] else [DecodeWord(b[..4])] + DecodeWords(b[4..])
  }

  lemma {:induction false} DecodeEncode(ws: seq<Word>)
    ensures DecodeWords(EncodeWords(ws)) == ws
  {
    hide EncodeWord, DecodeWord;
    if ws != [] {
      var e := EncodeWords(ws);
      assert e[..4] == EncodeWord(ws[0]) && e[4..] == EncodeWords(ws[1..]);
      DecodeEncodeWord(ws[0]);
      DecodeEncode(ws[1..]);
    }
  }

  lemma DecodeEncodeWord(w: Word)
    ensures DecodeWord(EncodeWord(w)) == w
  {
    var x, y, z := w / 256, w / 65536, w / 16777216;
    assert y == x / 256 && z == y / 256 && z < 256;
    assert w == 256 * x + w % 256 && x == 256 * y + x % 256 && y == 256 * z + y % 256;
  }

  /** The number whose bytes these are: each has 256 times the weight of the one before. */
  function LittleEndian(b: Bytes): nat { if b == [] then 0 else b[0] + 256 * LittleEndian(b[1..]) }

  lemma FourBytes(b: Bytes)
    requires |b| == 4
    ensures LittleEndian(b) == b[0] as int + b[1] as int * 0x100 + b[2] as int * 0x1_0000 + b[3] as int * 0x100_0000
  {
    assert LittleEndian(b[3..]) == b[3] by { assert b[3..][1..] == []; }
    assert LittleEndian(b[2..]) == b[2] + 256 * LittleEndian(b[3..]) by { assert b[2..][1..] == b[3..]; }
    assert LittleEndian(b[1..]) == b[1] + 256 * LittleEndian(b[2..]) by { assert b[1..][1..] == b[2..]; }
  }

  lemma {:induction false} LittleEndianConcat(a: Bytes, b: Bytes)
    ensures LittleEndian(a + b) == LittleEndian(a) + Pow2(8 * |a|) * LittleEndian(b)
  {
    if a == [] {
      assert a + b == b;
    } else {
      assert (a + b)[1..] == a[1..] + b;
      LittleEndianConcat(a[1..], b);
      Shifted(a[0], LittleEndian(a[1..]), Pow2(8 * |a| - 8), LittleEndian(b));
      Times256(8 * |a| - 8);
    }
  }

  lemma Times256(n: nat)
    ensures Pow2(n + 8) == 256 * Pow2(n)
  {
    assert Pow2(n + 2) == 4 * Pow2(n);
    assert Pow2(n + 4) == 4 * Pow2(n + 2);
    assert Pow2(n + 6) == 4 * Pow2(n + 4);
  }

  lemma Shifted(x: nat, m: nat, p: nat, n: nat)
    ensures x + 256 * (m + p * n) == x + 256 * m + (256 * p) * n
  {
  }

  lemma Pow32()
    ensures Pow2(32) == 0x1_0000_0000
  {
    Times256(0);
    Times256(8);
    Times256(16);
    Times256(24);
  }

  /** Bytes of one number are the same ones. */
  lemma {:induction false} LittleEndianIsOne(a: Bytes, b: Bytes)
    requires |a| == |b| && LittleEndian(a) == LittleEndian(b)
    ensures a == b
  {
    if a != [] {
      LowByte(a[0], LittleEndian(a[1..]), b[0], LittleEndian(b[1..]));
      LittleEndianIsOne(a[1..], b[1..]);
      assert a == [a[0]] + a[1..] && b == [b[0]] + b[1..];
    }
  }

  lemma LowByte(x: Byte, m: nat, y: Byte, n: nat)
    requires x + 256 * m == y + 256 * n
    ensures x == y && m == n
  {
  }

  /** The coding of words: each is the number of its four bytes. */
  lemma {:induction false} WordBytes(ws: seq<Word>, i: nat)
    requires i < |ws|
    ensures LittleEndian(EncodeWords(ws)[4 * i..4 * i + 4]) == ws[i]
  {
    hide EncodeWord, DecodeWord, LittleEndian;
    var e, rest := EncodeWord(ws[0]), EncodeWords(ws[1..]);
    if i == 0 {
      assert EncodeWords(ws)[0..4] == e;
      FourBytes(e);
      DecodeEncodeWord(ws[0]);
      DecodeIsSum(e);
    } else {
      WordBytes(ws[1..], i - 1);
      assert (e + rest)[4 * i..4 * i + 4] == rest[4 * (i - 1)..4 * (i - 1) + 4];
    }
  }

  lemma DecodeIsSum(b: Bytes)
    requires |b| == 4
    ensures DecodeWord(b) == b[0] as int + b[1] as int * 0x100 + b[2] as int * 0x1_0000 + b[3] as int * 0x100_0000
  {
  }

  /** The four words to begin with, as section 3.3 of RFC 1321 lists their bytes. */
  lemma InitBytes()
    ensures StateBytes(INIT) ==
            [0x01, 0x23, 0x45, 0x67, 0x89, 0xab, 0xcd, 0xef, 0xfe, 0xdc, 0xba, 0x98, 0x76, 0x54, 0x32, 0x10]
  {
    hide EncodeWords;
    FourWords(INIT);
  }

  /** What MD5Final writes. */
  function StateBytes(s: State): Bytes { EncodeWords([s.a, s.b, s.c, s.d]) }

  lemma FourWords(s: State)
    ensures StateBytes(s) == EncodeWord(s.a) + EncodeWord(s.b) + EncodeWord(s.c) + EncodeWord(s.d)
  {
    hide EncodeWord;
    assert EncodeWords([s.d]) == EncodeWord(s.d) by { assert [s.d][1..] == []; }
    assert EncodeWords([s.c, s.d]) == EncodeWord(s.c) + EncodeWord(s.d) by { assert [s.c, s.d][1..] == [s.d]; }
    var three: seq<Word> := [s.b, s.c, s.d];
    assert EncodeWords(three) == EncodeWord(s.b) + EncodeWord(s.c) + EncodeWord(s.d) by {
      assert three[1..] == [s.c, s.d];
    }
    var ws: seq<Word> := [s.a, s.b, s.c, s.d];
    assert ws[1..] == three;
  }

  /** The sixteen bytes of a digest are the four words of the state, each with its low byte first. */
  predicate IsDigest(b: Bytes, s: State) {
    && |b| == 16
    && LittleEndian(b[..4]) == s.a && LittleEndian(b[4..8]) == s.b
    && LittleEndian(b[8..12]) == s.c && LittleEndian(b[12..]) == s.d
  }

  lemma StateIsDigest(s: State)
    ensures IsDigest(StateBytes(s), s)
  {
    hide EncodeWords, LittleEndian;
    var ws: seq<Word>, b := [s.a, s.b, s.c, s.d], StateBytes(s);
    WordBytes(ws, 0);
    WordBytes(ws, 1);
    WordBytes(ws, 2);
    WordBytes(ws, 3);
    assert b[..4] == b[4 * 0..4 * 0 + 4] && b[12..] == b[4 * 3..4 * 3 + 4];
  }

  /** MD5Encode */
  method Encode(input: seq<Word>, len: nat) returns (output: Bytes)
    requires len == 4 * |input|
    ensures output == EncodeWords(input)
  {
    output := [];
    var i, j := 0, 0;
    assert input[0..] == input;
    while j < len
      invariant j == 4 * i && i <= |input| && output + EncodeWords(input[i..]) == EncodeWords(input)
    {
      var w := input[i];
      assert input[i..][1..] == input[i + 1..];
      assert output + (EncodeWord(w) + EncodeWords(input[i + 1..])) ==
             output + EncodeWord(w) + EncodeWords(input[i + 1..]);
      output := output + [w % 256, w / 256 % 256, w / 65536 % 256, w / 16777216 % 256];
      i := i + 1;
      j := j + 4;
    }
    assert input[i..] == [] && output + [] == output;
  }

  // ---------- padding ----------

  function Zeros(n: nat): (z: Bytes)
    ensures |z| == n
  {
    seq(n, _ => 0)
  }

  /** Section 3.1 of RFC 1321: a one bit, and zeros up to 56 bytes modulo 64. */
  function PadLength(len: nat): (n: nat)
    ensures 1 <= n <= 64 && (len + n) % 64 == 56
  {
    var index := len % 64;
    if index < 56 then 56 - index else 120 - index
  }

  /** Section 3.2 of RFC 1321: the length in bits, modulo 2^64, as two words with the low one first. */
  function LengthWords(len: nat): seq<Word>
  {
    [Bits(len) % TWO32, Bits(len) / TWO32]
  }

  function Padded(m: Bytes): Bytes
  {
    m + ([0x80] + Zeros(PadLength(|m|) - 1)) + EncodeWords(LengthWords(|m|))
  }

  lemma PaddedFills(m: Bytes)
    ensures |Padded(m)| % 64 == 0
  {
    var n := PadLength(|m|);
    assert |Padded(m)| == |m| + n + 8;
    Plus8(|m| + n);
  }

  lemma Plus8(n: nat)
    requires n % 64 == 56
    ensures (n + 8) % 64 == 0
  {
  }

  /** The padding is the least that leaves room for the length. */
  lemma PadLengthIsLeast(len: nat, n: nat)
    requires n >= 1 && (len + n) % 64 == 56
    ensures PadLength(len) <= n
  {
  }

  /** The padded message byte by byte: sections 3.1 and 3.2 of RFC 1321. */
  predicate IsPadded(m: Bytes, p: Bytes) {
    && |m| + 9 <= |p| < |m| + 9 + 64 && |p| % 64 == 0
    && p[..|m|] == m && p[|m|] == 0x80
    && (forall i :: |m| < i < |p| - 8 ==> p[i] == 0)
    && LittleEndian(p[|p| - 8..]) == |m| * 8 % 0x1_0000_0000_0000_0000
  }

  /** The padded message is the only one like that. */
  lemma PaddedIff(m: Bytes, p: Bytes)
    ensures p == Padded(m) <==> IsPadded(m, p)
  {
    hide IsPadded, Padded;
    PaddedIsPadded(m);
    if IsPadded(m, p) {
      OnePadding(m, p, Padded(m));
    }
  }

  lemma PaddedIsPadded(m: Bytes)
    ensures IsPadded(m, Padded(m))
  {
    PaddedFills(m);
    LengthBytes(|m|);
    hide LittleEndian, EncodeWords, LengthWords;
    var p, n := Padded(m), PadLength(|m|);
    var zs, e := Zeros(n - 1), EncodeWords(LengthWords(|m|));
    assert p[|p| - 8..] == e;
    forall i | |m| < i < |p| - 8 ensures p[i] == 0 {
      assert p[i] == zs[i - |m| - 1];
    }
  }

  lemma LengthBytes(len: nat)
    ensures |EncodeWords(LengthWords(len))| == 8
    ensures LittleEndian(EncodeWords(LengthWords(len))) == len * 8 % 0x1_0000_0000_0000_0000
  {
    hide LittleEndian, EncodeWords;
    var e := EncodeWords(LengthWords(len));
    WordBytes(LengthWords(len), 0);
    WordBytes(LengthWords(len), 1);
    assert e == e[4 * 0..4 * 0 + 4] + e[4 * 1..4 * 1 + 4];
    LittleEndianConcat(e[..4], e[4..8]);
    Pow32();
    assert e[..4] == e[4 * 0..4 * 0 + 4] && e[4..8] == e[4 * 1..4 * 1 + 4];
  }

  lemma OnePadding(m: Bytes, p: Bytes, q: Bytes)
    requires IsPadded(m, p) && IsPadded(m, q)
    ensures p == q
  {
    hide LittleEndian;
    SameFill(|p|, |q|, |m| + 9);
    LittleEndianIsOne(p[|p| - 8..], q[|q| - 8..]);
    forall i | 0 <= i < |p| ensures p[i] == q[i] {
      if i < |m| {
        assert p[i] == p[..|m|][i] && q[i] == q[..|m|][i];
      } else if i >= |p| - 8 {
        assert p[i] == p[|p| - 8..][i - (|p| - 8)] && q[i] == q[|q| - 8..][i - (|p| - 8)];
      }
    }
  }

  lemma SameFill(a: nat, b: nat, n: nat)
    requires n <= a < n + 64 && n <= b < n + 64 && a % 64 == 0 && b % 64 == 0
    ensures a == b
  {
  }

  // ---------- the context ----------

  lemma CountAdds(c0: nat, c1: nat, total: nat, n: nat)
    requires c0 < TWO32 && c1 < TWO32 && c1 * TWO32 + c0 == total * 8 % TWO64 && n < TWO32
    ensures var d := n * 8 % TWO32;
            var e0 := (c0 + d) % TWO32;
            var e1 := (if e0 < d then (c1 + 1) % TWO32 else c1);
            (e1 + n / 0x2000_0000) % TWO32 * TWO32 + e0 == (total + n) * 8 % TWO64
  {
    var d, h := n * 8 % TWO32, n / 0x2000_0000;
    assert n * 8 == h * TWO32 + d;
    var e0, carry := (c0 + d) % TWO32, if c0 + d >= TWO32 then 1 else 0;
    Carry(c0, d);
    var q, x := total * 8 / TWO64, c1 + carry + h;
    assert total * 8 == q * TWO64 + c1 * TWO32 + c0;
    var r, y := x / TWO32, x % TWO32;
    assert x == r * TWO32 + y;
    assert (total + n) * 8 == (q + r) * TWO64 + (y * TWO32 + e0);
    Remainder((total + n) * 8, q + r, y * TWO32 + e0);
    HighWord(c1, carry, h);
  }

  lemma Carry(c: nat, d: nat)
    requires c < TWO32 && d < TWO32
    ensures var e := (c + d) % TWO32;
            if c + d >= TWO32 then e == c + d - TWO32 && e < d else e == c + d && e >= d
  {
  }

  lemma HighWord(c: nat, carry: nat, h: nat)
    requires c < TWO32 && carry <= 1 && h < 8
    ensures ((if carry == 1 then (c + 1) % TWO32 else c) + h) % TWO32 == (c + carry + h) % TWO32
  {
  }

  lemma Remainder(x: nat, q: nat, r: nat)
    requires x == q * TWO64 + r && r < TWO64
    ensures x % TWO64 == r
  {
  }

  /** The place in the buffer, as the count of bits has it. */
  lemma IndexIs(c0: nat, c1: nat, total: nat)
    requires c0 < TWO32 && c1 * TWO32 + c0 == Bits(total)
    ensures c0 / 8 % 64 == Left(total)
  {
    var q := total * 8 / TWO64;
    var m := c1 * 0x80_0000 + q * 0x80_0000_0000_0000;
    assert c0 == 8 * (total - 64 * m);
    Mod64(total, m);
  }

  lemma Mod64(n: int, m: int)
    ensures (n - 64 * m) % 64 == n % 64
  {
  }

  /** How many bytes are left when full blocks are taken away. */
  function Left(n: nat): (k: nat)
    ensures k < 64 && k <= n
  {
    n % 64
  }

  /** The length in bits, as far as two words go. */
  function Bits(n: nat): nat { n * 8 % TWO64 }

  lemma LeftAdd(n: nat, add: nat)
    ensures (n - Left(n)) % 64 == 0
    ensures Left(n) + add < 64 ==> Left(n + add) == Left(n) + add
  {
  }

  /** At the end of a block either another one is left, or less than one. */
  lemma BlocksLeft(m: nat, i: nat, n: nat)
    requires (m + i) % 64 == 0 && i <= n
    ensures i + 64 <= n || i == n - Left(m + n)
  {
  }

  lemma LeftNone(n: nat, add: nat)
    requires n % 64 == 0 && add < 64
    ensures Left(n + add) == add
  {
  }

  /**
   * Where the loop of MD5Update is to stop, after the last full block of an input: there the 32-bit
   * sum in its condition must not have wrapped.
   */
  predicate IndexHolds(total: nat, n: nat)
  {
    n < TWO32 && (Left(total) + n >= 64 ==> n - Left(total + n) + 64 < TWO32)
  }

  /** The condition is exact: where it fails, the loop goes on with fewer than 64 bytes left. */
  lemma IndexWraps(total: nat, n: nat)
    requires n < TWO32 && Left(total) + n >= 64
    ensures var i := n - Left(total + n);
            0 <= i && n < i + 64 && (IndexHolds(total, n) <==> (i + 64) % TWO32 > n)
  {
  }

  /**
   * And it never ends: where the condition fails, the sum stays within the input at every index that the
   * loop can reach, since the index goes round through all numbers of 32 bits with the same remainder.
   */
  lemma LoopNeverEndsIff(total: nat, n: nat)
    requires n < TWO32 && Left(total) + n >= 64
    ensures !IndexHolds(total, n) <==> forall i: nat :: i < TWO32 && (total + i) % 64 == 0 ==> GoesOn(i, n)
  {
    var last := n - Left(total + n);
    assert (total + last) % 64 == 0;
    if IndexHolds(total, n) {
      assert !GoesOn(last, n);
    } else {
      forall i: nat | i < TWO32 && (total + i) % 64 == 0 ensures GoesOn(i, n) {
        RoundsUp(total, last, i);
      }
    }
  }

  /** The condition of the loop, with the sum of 32 bits. */
  predicate GoesOn(i: nat, n: nat) { (i + 64) % TWO32 <= n }

  /** An input that shows it, the longest there is for a new context: the loop never comes to an end. */
  lemma LongestNeverEnds()
    ensures !IndexHolds(0, TWO32 - 1)
    ensures forall i: nat :: i < TWO32 && i % 64 == 0 ==> GoesOn(i, TWO32 - 1)
  {
    LoopNeverEndsIff(0, TWO32 - 1);
    forall i: nat | i < TWO32 && i % 64 == 0 ensures GoesOn(i, TWO32 - 1) {
      assert (0 + i) % 64 == 0;
    }
  }

  /** Of the numbers with one remainder the last before 2^32 is not passed. */
  lemma RoundsUp(total: nat, last: nat, i: nat)
    requires TWO32 - 64 <= last < TWO32 && i < TWO32 && (total + last) % 64 == 0 && (total + i) % 64 == 0
    ensures (i + 64) % TWO32 <= last
  {
    assert (i - last) % 64 == 0;
  }

  /** An input short enough never comes near it. */
  lemma ShortIndexHolds(total: nat, n: nat)
    requires n < TWO32 - 64
    ensures IndexHolds(total, n)
  {
  }

  /** Bytes that do not fill a block. */
  lemma FoldStays(f: Transform, head: Bytes, tail: Bytes, input: Bytes)
    requires |head| % 64 == 0 && |tail| + |input| < 64
    ensures Fold(f, INIT, head + tail + input) == Fold(f, INIT, head + tail)
    ensures (head + tail + input)[|head|..] == tail + input
  {
    hide Fold;
    FoldShort(f, INIT, head, tail);
    FoldShort(f, INIT, head, tail + input);
    assert head + (tail + input) == head + tail + input;
  }

  /** MD5_CTX */
  class Context {
    const transform: Transform
    var count0: Word
    var count1: Word
    var state: State
    var buffer: array<Byte>
    /** All the bytes taken so far. */
    ghost var message: Bytes

    ghost predicate Valid()
      reads this, buffer
    {
      var k := Left(|message|);
      && buffer.Length == 64
      && count1 * TWO32 + count0 == Bits(|message|)
      && state == Fold(transform, INIT, message)
      && buffer[..k] == message[|message| - k..]
    }

    /** MD5Init */
    constructor (transform: Transform)
      ensures Valid() && fresh(buffer) && message == [] && this.transform == transform
    {
      this.transform := transform;
      count0, count1, state := 0, 0, INIT;
      buffer := new Byte[64](_ => 0);
      message := [];
    }

    /** memcpy into the buffer */
    method Copy(index: nat, input: Bytes)
      requires buffer.Length == 64 && index + |input| <= 64
      modifies buffer
      ensures buffer[..index + |input|] == old(buffer[..index]) + input
    {
      forall k | 0 <= k < |input| {
        buffer[index + k] := input[k];
      }
    }

    /** The counting part of MD5Update. */
    method Count(inputlen: nat, ghost total: nat)
      requires inputlen < TWO32 && count1 * TWO32 + count0 == Bits(total)
      modifies `count0, `count1
      ensures count1 * TWO32 + count0 == Bits(total + inputlen)
    {
      CountAdds(count0, count1, total, inputlen);
      count0 := (count0 + inputlen * 8 % TWO32) % TWO32;
      if count0 < inputlen * 8 % TWO32 {
        count1 := (count1 + 1) % TWO32;
      }
      count1 := (count1 + inputlen / 0x2000_0000) % TWO32;
    }

    /** The loop of MD5Update. */
    method TakeBlocks(input: Bytes, start: nat, ghost m: Bytes) returns (i: nat)
      requires start <= |input| && (|m| + start) % 64 == 0 && state == Fold(transform, INIT, m + input[..start])
      requires |input| < TWO32 && |input| - Left(|m| + |input|) + 64 < TWO32
      modifies `state
      ensures start <= i <= |input| < i + 64 && (|m| + i) % 64 == 0 && state == Fold(transform, INIT, m + input[..i])
    {
      hide Fold, Left;
      i := start;
      BlocksLeft(|m|, i, |input|);
      while (i + 64) % TWO32 <= |input|
        invariant start <= i <= |input| && (|m| + i) % 64 == 0
        invariant i + 64 <= |input| || i == |input| - Left(|m| + |input|)
        invariant state == Fold(transform, INIT, m + input[..i])
        decreases |input| - i
      {
        BlocksLeft(|m|, i + 64, |input|);
        FoldConcat(transform, INIT, m + input[..i], input[i..i + 64]);
        FoldOne(transform, state, input[i..i + 64]);
        assert m + input[..i] + input[i..i + 64] == m + input[..i + 64];
        state := transform(state, input[i..i + 64]);
        i := i + 64;
      }
    }

    /** The buffer filled up makes a block. */
    method TakeBuffer(input: Bytes, partlen: nat, ghost m: Bytes)
      requires buffer.Length == 64 && partlen == 64 - Left(|m|) <= |input|
      requires buffer[..Left(|m|)] == m[|m| - Left(|m|)..] && state == Fold(transform, INIT, m)
      modifies `state, buffer
      ensures state == Fold(transform, INIT, m + input[..partlen]) && (|m| + partlen) % 64 == 0
    {
      hide Fold;
      ghost var k := Left(|m|);
      ghost var head, tail := m[..|m| - k], m[|m| - k..];
      assert m == head + tail;
      Copy(64 - partlen, input[..partlen]);
      assert buffer[..] == buffer[..64] == tail + input[..partlen];
      FoldShort(transform, INIT, head, tail);
      FoldConcat(transform, INIT, head, buffer[..]);
      FoldOne(transform, state, buffer[..]);
      assert head + (tail + input[..partlen]) == m + input[..partlen];
      state := transform(state, buffer[..]);
    }

    /** The end of MD5Update when the buffer was emptied. */
    method KeepRest(input: Bytes, i: nat, ghost m: Bytes)
      requires buffer.Length == 64 && i <= |input| < i + 64 && (|m| + i) % 64 == 0
      requires state == Fold(transform, INIT, m + input[..i]) && count1 * TWO32 + count0 == Bits(|m| + |input|)
      modifies `message, buffer
      ensures Valid() && message == m + input
    {
      hide Fold, Left, Bits;
      FoldShort(transform, INIT, m + input[..i], input[i..]);
      assert m + input[..i] + input[i..] == m + input;
      Copy(0, input[i..]);
      LeftNone(|m| + i, |input| - i);
      message := m + input;
      assert message[|m| + i..] == input[i..];
    }

    /** The end of MD5Update when the buffer is not full. */
    method KeepAll(input: Bytes, index: nat, ghost m: Bytes)
      requires buffer.Length == 64 && index == Left(|m|) && index + |input| < 64 && buffer[..index] == m[|m| - index..]
      requires state == Fold(transform, INIT, m) && count1 * TWO32 + count0 == Bits(|m| + |input|)
      modifies `message, buffer
      ensures Valid() && message == m + input
    {
      hide Fold, Left, Bits;
      LeftAdd(|m|, |input|);
      assert m == m[..|m| - index] + m[|m| - index..];
      FoldStays(transform, m[..|m| - index], m[|m| - index..], input);
      Copy(index, input);
      message := m + input;
    }

    /**
     * MD5Update, where the 32-bit index of its loop does not wrap. However the
     * message is cut up, the state is the fold over its full blocks and the buffer holds the rest.
     */
    method Update(input: Bytes)
      requires Valid() && IndexHolds(|message|, |input|)
      modifies this, buffer
      ensures Valid() && message == old(message) + input && buffer == old(buffer)
    {
      hide Fold, Bits;
      IndexIs(count0, count1, |message|);
      var index := count0 / 8 % 64;
      var partlen := 64 - index;
      Count(|input|, |message|);
      if |input| >= partlen {
        TakeBuffer(input, partlen, message);
        var i := TakeBlocks(input, partlen, message);
        KeepRest(input, i, message);
      } else {
        KeepAll(input, index, message);
      }
    }

    /** MD5Final: the whole padded message has been taken, and it fills its blocks, so that no byte of it
        is left in the buffer. */
    method Final() returns (digest: Bytes)
      requires Valid()
      modifies this, buffer
      ensures Valid() && IsPadded(old(message), message)
      ensures IsDigest(digest, Fold(transform, INIT, message))
    {
      hide Fold, Bits, Padded, IsPadded, EncodeWords, IsDigest;
      ghost var m := message;
      IndexIs(count0, count1, |m|);
      var index := count0 / 8 % 64;
      var padlen := if index < 56 then 56 - index else 120 - index;
      var bits := Encode([count0, count1], 8);
      PaddedIs(m, padlen, count0, count1);
      PaddedFills(m);
      ShortIndexHolds(|m|, padlen);
      ShortIndexHolds(|m| + padlen, 8);
      Update([0x80] + Zeros(padlen - 1));
      Update(bits);
      PaddedIff(m, message);
      StateIsDigest(state);
      digest := Encode([state.a, state.b, state.c, state.d], 16);
    }
  }

  lemma PaddedIs(m: Bytes, padlen: nat, c0: Word, c1: Word)
    requires padlen == (if Left(|m|) < 56 then 56 - Left(|m|) else 120 - Left(|m|)) && c1 * TWO32 + c0 == Bits(|m|)
    ensures 1 <= padlen <= 64 && m + ([0x80] + Zeros(padlen - 1)) + EncodeWords([c0, c1]) == Padded(m)
  {
    var x := Bits(|m|);
    assert x % TWO32 == c0 && x / TWO32 == c1;
  }

  /** Any number of updates, and the end: the digest is that of the whole message, however it was cut up. */
  method Digest(transform: Transform, parts: seq<Bytes>) returns (digest: Bytes)
    requires forall i :: 0 <= i < |parts| ==> IndexHolds(|Concat(parts[..i])|, |parts[i]|)
    ensures exists p :: IsPadded(Concat(parts), p) && IsDigest(digest, Fold(transform, INIT, p))
  {
    hide IsPadded, IsDigest, Fold;
    var context := new Context(transform);
    var i := 0;
    while i < |parts|
      invariant i <= |parts| && context.Valid() && fresh(context) && fresh(context.buffer)
                && context.transform == transform
      invariant context.message == Concat(parts[..i])
    {
      context.Update(parts[i]);
      ConcatSnoc(parts[..i], parts[i]);
      assert parts[..i + 1] == parts[..i] + [parts[i]];
      i := i + 1;
    }
    assert parts[..i] == parts;
    digest := context.Final();
  }

}
