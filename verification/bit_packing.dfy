/** The variable-width bit packing of cel_compress.c: the second half of cel_lzw_encode_string and the
    first half of cel_lzw_decode_string. */
module BitPacking {
  import opened Common

  /** The `n` low bits of a number, the high one first. */
  function ToBits(v: nat, n: nat): (bs: seq<bool>)
    ensures |bs| == n
  {
    if n == 0 then [] else ToBits(v / 2, n - 1) + [v % 2 == 1]
  }

  function FromBits(bs: seq<bool>): nat {
    if bs == [] then 0 else 2 * FromBits(bs[..|bs| - 1]) + if bs[|bs| - 1] then 1 else 0
  }

  lemma {:induction false} FromToBits(v: nat, n: nat)
    requires v < Pow2(n)
    ensures FromBits(ToBits(v, n)) == v
  {
    if n > 0 {
      FromToBits(v / 2, n - 1);
      assert ToBits(v, n)[..n - 1] == ToBits(v / 2, n - 1);
    }
  }

  lemma {:induction false} Pow2Adds(a: nat, b: nat)
    ensures Pow2(a + b) == Pow2(a) * Pow2(b)
  {
    if b > 0 {
      Pow2Adds(a, b - 1);
      assert Pow2(a) * Pow2(b) == 2 * (Pow2(a) * Pow2(b - 1)) by { MulSwap(Pow2(a), 2, Pow2(b - 1)); }
    }
  }

  lemma MulSwap(a: nat, b: nat, c: nat)
    ensures a * (b * c) == b * (a * c)
  {
  }

  // ---------- shifts and masks ----------

  /** `v << n` */
  function Shl(v: nat, n: nat): nat { v * Pow2(n) }

  /** `v >> n` */
  function Shr(v: nat, n: nat): nat { Div(v, Pow2(n)) }

  function Div(a: nat, b: nat): nat
    requires b > 0
  {
    a / b
  }

  /** `v & ((1 << n) - 1)` */
  function Low(v: nat, n: nat): nat { v % Pow2(n) }

  lemma Half(v: nat, h: nat, c: nat)
    ensures (v * (2 * h) + c) / 2 == v * h + c / 2
    ensures (v * (2 * h) + c) % 2 == c % 2
  {
    MulSwap(v, 2, h);
  }

  /** `(v << n) + c` puts the bits of `c` after those of `v`. */
  lemma {:induction false} Join(v: nat, m: nat, c: nat, n: nat)
    requires c < Pow2(n)
    ensures ToBits(Shl(v, n) + c, m + n) == ToBits(v, m) + ToBits(c, n)
  {
    if n == 0 {
      assert Shl(v, 0) + c == v;
      assert ToBits(v, m) + ToBits(c, 0) == ToBits(v, m);
    } else {
      Half(v, Pow2(n - 1), c);
      Join(v, m, c / 2, n - 1);
      HalfOfShl(v, n, c);
      assert ToBits(Shl(v, n) + c, m + n) == ToBits(v, m) + ToBits(c / 2, n - 1) + [c % 2 == 1];
    }
  }

  lemma HalfOfShl(v: nat, n: nat, c: nat)
    requires n > 0
    ensures (Shl(v, n) + c) / 2 == Shl(v, n - 1) + c / 2 && (Shl(v, n) + c) % 2 == c % 2
  {
    Half(v, Pow2(n - 1), c);
  }

  lemma ShrLow(v: nat, n: nat)
    ensures Shl(Shr(v, n), n) + Low(v, n) == v && Low(v, n) < Pow2(n)
  {
    Division(v, Pow2(n));
  }

  lemma Division(v: nat, p: nat)
    requires p > 0
    ensures (v / p) * p + v % p == v && v % p < p
  {
  }

  /** `v >> n` and `v & ((1 << n) - 1)` split the bits. */
  lemma Split(v: nat, m: nat, n: nat)
    ensures ToBits(v, m + n) == ToBits(Shr(v, n), m) + ToBits(Low(v, n), n)
  {
    hide Shr, Low, Shl, Pow2;
    ShrLow(v, n);
    Join(Shr(v, n), m, Low(v, n), n);
  }

  lemma ShrBound(v: nat, m: nat, n: nat)
    requires v < Pow2(m + n)
    ensures Shr(v, n) < Pow2(m)
  {
    Pow2Adds(m, n);
    Quotient(v, Pow2(m), Pow2(n));
  }

  lemma Quotient(v: nat, a: nat, b: nat)
    requires b > 0 && v < a * b
    ensures v / b < a
  {
    if v / b >= a {
      Division(v, b);
      MulMonotone(a, v / b, b);
    }
  }

  lemma MulMonotone(a: nat, c: nat, b: nat)
    requires a <= c
    ensures a * b <= c * b
  {
  }

  lemma ShlBound(v: nat, m: nat, c: nat, n: nat)
    requires v < Pow2(m) && c < Pow2(n)
    ensures Shl(v, n) + c < Pow2(m + n)
  {
    Pow2Adds(m, n);
    MulMonotone(v + 1, Pow2(m), Pow2(n));
    assert (v + 1) * Pow2(n) == v * Pow2(n) + Pow2(n);
  }

  lemma Eight()
    ensures Pow2(8) == 256
  {
    assert Pow2(4) == 16;
    Pow2Adds(4, 4);
  }

  // ---------- code widths ----------

  /** The value of `bits` for the k-th code: one more whenever the dictionary outgrows it. */
  function Width(k: nat): nat {
    if k == 0 then 8 else Width(k - 1) + if 256 + k > Pow2(Width(k - 1)) then 1 else 0
  }

  /** The k-th width is the least that holds every code below 256 + k. */
  lemma {:induction false} WidthIsLeast(k: nat)
    ensures 8 <= Width(k)
    ensures Pow2(Width(k)) >= 256 + k
    ensures k > 0 ==> Pow2(Width(k) - 1) < 256 + k
  {
    if k == 0 {
      assert Pow2(8) == 256 by { assert Pow2(4) == 16; Pow2Adds(4, 4); }
    } else {
      WidthIsLeast(k - 1);
      if k == 1 {
        assert Pow2(8) == 256 by { assert Pow2(4) == 16; Pow2Adds(4, 4); }
      }
    }
  }

  /** The bits of a list of codes, the first of which is the k-th. */
  function CodeBits(codes: seq<nat>, k: nat): seq<bool>
    decreases |codes|
  {
    if codes == [] then [] else ToBits(codes[0], Width(k)) + CodeBits(codes[1..], k + 1)
  }

  function BytesBits(bytes: seq<Byte>): seq<bool> {
    if bytes == [] then [] else ToBits(bytes[0], 8) + BytesBits(bytes[1..])
  }

  function Zeros(n: nat): seq<bool> { seq(n, _ => false) }

  /** The codes that a bit string holds: as many as are complete. */
  function CodesOf(bs: seq<bool>, k: nat): seq<nat>
    decreases |bs|
  {
    if |bs| < Width(k) || Width(k) == 0 then []
    else [FromBits(bs[..Width(k)])] + CodesOf(bs[Width(k)..], k + 1)
  }

  /** Every code fits the width it is written with. */
  predicate Fits(codes: seq<nat>) { forall k :: 0 <= k < |codes| ==> codes[k] < 256 + k }

  lemma {:induction false} CodeBitsSnoc(codes: seq<nat>, c: nat, k: nat)
    ensures CodeBits(codes + [c], k) == CodeBits(codes, k) + ToBits(c, Width(k + |codes|))
    decreases |codes|
  {
    hide ToBits, Width;
    if codes == [] {
      assert codes + [c] == [c] && [c][1..] == [];
      assert CodeBits([c], k) == ToBits(c, Width(k)) + [];
    } else {
      assert (codes + [c])[0] == codes[0] && (codes + [c])[1..] == codes[1..] + [c];
      CodeBitsSnoc(codes[1..], c, k + 1);
      assert k + 1 + |codes[1..]| == k + |codes|;
      var h, t, e := ToBits(codes[0], Width(k)), CodeBits(codes[1..], k + 1), ToBits(c, Width(k + |codes|));
      hide CodeBits;
      assert h + (t + e) == h + t + e;
    }
  }

  lemma {:induction false} BytesBitsSnoc(bytes: seq<Byte>, b: Byte)
    ensures BytesBits(bytes + [b]) == BytesBits(bytes) + ToBits(b, 8)
  {
    if bytes == [] {
      assert bytes + [b] == [b] && [b][1..] == [];
    } else {
      assert (bytes + [b])[0] == bytes[0] && (bytes + [b])[1..] == bytes[1..] + [b];
      BytesBitsSnoc(bytes[1..], b);
    }
  }

  /** Each code goes into the width it is written with, the first one that of place `k`. */
  predicate Narrow(codes: seq<nat>, k: nat)
    decreases |codes|
  {
    codes == [] || (codes[0] < Pow2(Width(k)) && Narrow(codes[1..], k + 1))
  }

  lemma {:induction false} NarrowSnoc(codes: seq<nat>, c: nat, k: nat)
    requires Narrow(codes, k) && c < Pow2(Width(k + |codes|))
    ensures Narrow(codes + [c], k)
    decreases |codes|
  {
    hide Pow2, Width;
    if codes == [] {
      assert codes + [c] == [c] && [c][1..] == [];
    } else {
      FirstOfConcat(codes, [c]);
      assert k + 1 + |codes[1..]| == k + |codes|;
      NarrowSnoc(codes[1..], c, k + 1);
    }
  }

  lemma {:induction false} FittingIsNarrow(codes: seq<nat>, k: nat)
    requires forall i :: 0 <= i < |codes| ==> codes[i] < 256 + k + i
    ensures Narrow(codes, k)
    decreases |codes|
  {
    hide Pow2, Width;
    if codes != [] {
      WidthIsLeast(k);
      FittingIsNarrow(codes[1..], k + 1);
    }
  }

  /** Reading back: the codes are recovered whatever follows them, as long as it is shorter than a code. */
  lemma {:induction false} CodesOfCodeBits(codes: seq<nat>, k: nat, rest: seq<bool>)
    requires Narrow(codes, k)
    requires |rest| < Width(k + |codes|)
    ensures CodesOf(CodeBits(codes, k) + rest, k) == codes
    decreases |codes|
  {
    WidthIsLeast(k);
    hide Pow2, ToBits, FromBits, Width;
    var w := Width(k);
    if codes == [] {
      assert CodeBits(codes, k) + rest == rest;
    } else {
      var bs := CodeBits(codes, k) + rest;
      var c, t := codes[0], codes[1..];
      assert bs[..w] == ToBits(c, w);
      assert bs[w..] == CodeBits(t, k + 1) + rest;
      FromToBits(c, w);
      CodesOfCodeBits(t, k + 1, rest);
      assert [c] + t == codes;
    }
  }

  // ---------- the loops ----------

  /** The bytes of a bit string, the last one filled up with zeros. */
  predicate Packs(bytes: seq<Byte>, bs: seq<bool>) {
    exists pad: nat | pad < 8 :: BytesBits(bytes) == bs + Zeros(pad)
  }

  /** The packing loop of the encoder.  `v` is the value of the bits not written yet, `rlen` their number. */
  method Pack(codes: seq<nat>) returns (out: seq<Byte>)
    requires Fits(codes)
    ensures Packs(out, CodeBits(codes, 0))
  {
    hide Shl, Pow2, ToBits, Width;
    WidthStart();
    var dsize, v, rlen, bits := 256, 0, 0, 8;
    out := [];
    NoBits();
    var i := 0;
    while i < |codes|
      invariant 0 <= i <= |codes| && dsize == 256 + i && bits == Width(i)
      invariant 0 <= v < Pow2(rlen) && 0 <= rlen < 8
      invariant BytesBits(out) + ToBits(v, rlen) == CodeBits(codes[..i], 0)
    {
      AddCode(out, v, rlen, codes, i);
      v := Shl(v, bits) + codes[i];
      rlen := rlen + bits;
      dsize := dsize + 1;
      WidthStep(i + 1);
      if dsize > Pow2(bits) {
        bits := bits + 1;
      }
      while rlen > 7
        invariant 0 <= v < Pow2(rlen) && 0 <= rlen
        invariant BytesBits(out) + ToBits(v, rlen) == CodeBits(codes[..i + 1], 0)
        decreases rlen
      {
        rlen := rlen - 8;
        PutByte(out, v, rlen);
        out := out + [Shr(v, rlen)];
        v := Low(v, rlen);
      }
      i := i + 1;
    }
    assert codes[..|codes|] == codes;
    if rlen > 0 {
      LastByte(out, v, rlen);
      out := out + [Shl(v, 8 - rlen)];
    } else {
      assert BytesBits(out) == CodeBits(codes, 0) + Zeros(0) by { assert Zeros(0) == []; }
    }
  }

  lemma WidthStart()
    ensures Width(0) == 8
  {
  }

  lemma WidthStep(k: nat)
    requires k > 0
    ensures Width(k) == Width(k - 1) + if 256 + k > Pow2(Width(k - 1)) then 1 else 0
  {
  }

  lemma NoBits()
    ensures forall v :: ToBits(v, 0) == [] && Pow2(0) == 1
  {
  }

  lemma AddCode(out: seq<Byte>, v: nat, rlen: nat, codes: seq<nat>, i: nat)
    requires i < |codes| && Fits(codes) && v < Pow2(rlen)
    requires BytesBits(out) + ToBits(v, rlen) == CodeBits(codes[..i], 0)
    ensures var bits := Width(i);
            Shl(v, bits) + codes[i] < Pow2(rlen + bits)
            && BytesBits(out) + ToBits(Shl(v, bits) + codes[i], rlen + bits) == CodeBits(codes[..i + 1], 0)
  {
    hide Shl, Pow2, ToBits, Width, CodeBits, BytesBits;
    var bits := Width(i);
    WidthIsLeast(i);
    ShlBound(v, rlen, codes[i], bits);
    Join(v, rlen, codes[i], bits);
    CodeBitsSnoc(codes[..i], codes[i], 0);
    assert codes[..i + 1] == codes[..i] + [codes[i]];
    assert BytesBits(out) + (ToBits(v, rlen) + ToBits(codes[i], bits)) ==
           BytesBits(out) + ToBits(v, rlen) + ToBits(codes[i], bits);
  }

  /** The top eight bits of `v` become a byte, and the byte is exact. */
  lemma PutByte(out: seq<Byte>, v: nat, rlen: nat)
    requires v < Pow2(rlen + 8)
    ensures Shr(v, rlen) < 256 && Low(v, rlen) < Pow2(rlen)
    ensures BytesBits(out + [Shr(v, rlen)]) + ToBits(Low(v, rlen), rlen) == BytesBits(out) + ToBits(v, rlen + 8)
  {
    hide Shr, Low, Pow2, ToBits, BytesBits;
    Eight();
    ShrLow(v, rlen);
    Split(v, 8, rlen);
    assert 8 + rlen == rlen + 8;
    ShrBound(v, 8, rlen);
    BytesBitsSnoc(out, Shr(v, rlen));
  }

  lemma {:induction false} ZeroBits(n: nat)
    ensures ToBits(0, n) == Zeros(n)
  {
    if n > 0 {
      ZeroBits(n - 1);
    }
  }

  lemma LastByte(out: seq<Byte>, v: nat, rlen: nat)
    requires 0 < rlen < 8 && v < Pow2(rlen)
    ensures Shl(v, 8 - rlen) < 256
    ensures BytesBits(out + [Shl(v, 8 - rlen)]) == BytesBits(out) + ToBits(v, rlen) + Zeros(8 - rlen)
  {
    hide Shl, Pow2, ToBits, BytesBits;
    Eight();
    var n := 8 - rlen;
    ShlBound(v, rlen, 0, n);
    Join(v, rlen, 0, n);
    ZeroBits(n);
    assert rlen + n == 8;
    BytesBitsSnoc(out, Shl(v, n));
  }

  /** The unpacking loop of the decoder: at most one code can be complete after each byte. */
  method Unpack(data: seq<Byte>) returns (ret: seq<nat>)
    ensures ret == CodesOf(BytesBits(data), 0)
  {
    hide Shl, Shr, Low, Pow2, ToBits, Width, CodeBits, BytesBits, CodesOf;
    WidthStart();
    NoBits();
    NothingRead(data);
    var dsize, v, rlen, bits := 256, 0, 0, 8;
    ret := [];
    var i := 0;
    while i < |data|
      invariant 0 <= i <= |data| && dsize == 256 + |ret| && bits == Width(|ret|)
      invariant 0 <= rlen < bits && 0 <= v < Pow2(rlen)
      invariant BytesBits(data[..i]) == CodeBits(ret, 0) + ToBits(v, rlen)
      invariant Narrow(ret, 0)
    {
      AddByte(ret, v, rlen, data, i);
      v := Shl(v, 8) + data[i];
      rlen := rlen + 8;
      WidthIsLeast(|ret|);
      WidthIsLeast(|ret| + 1);
      if rlen >= bits {
        rlen := rlen - bits;
        TakeCode(ret, v, bits, rlen);
        WidthStep(|ret| + 1);
        NarrowSnoc(ret, Shr(v, rlen), 0);
        ret := ret + [Shr(v, rlen)];
        v := Low(v, rlen);
        dsize := dsize + 1;
        if dsize > Pow2(bits) {
          bits := bits + 1;
        }
      }
      i := i + 1;
    }
    assert data[..|data|] == data;
    AllRead(data, ret, v, rlen);
  }

  lemma AllRead(data: seq<Byte>, ret: seq<nat>, v: nat, rlen: nat)
    requires rlen < Width(|ret|) && BytesBits(data) == CodeBits(ret, 0) + ToBits(v, rlen)
    requires Narrow(ret, 0)
    ensures ret == CodesOf(BytesBits(data), 0)
  {
    hide *;
    CodesOfCodeBits(ret, 0, ToBits(v, rlen));
  }

  lemma NothingRead(data: seq<Byte>)
    ensures BytesBits(data[..0]) == CodeBits([], 0) + ToBits(0, 0)
  {
  }

  lemma AddByte(ret: seq<nat>, v: nat, rlen: nat, data: seq<Byte>, i: nat)
    requires i < |data| && v < Pow2(rlen)
    requires BytesBits(data[..i]) == CodeBits(ret, 0) + ToBits(v, rlen)
    ensures Shl(v, 8) + data[i] < Pow2(rlen + 8)
    ensures BytesBits(data[..i + 1]) == CodeBits(ret, 0) + ToBits(Shl(v, 8) + data[i], rlen + 8)
  {
    hide Shl, Pow2, ToBits, CodeBits, BytesBits;
    Eight();
    ShlBound(v, rlen, data[i], 8);
    Join(v, rlen, data[i], 8);
    BytesBitsSnoc(data[..i], data[i]);
    assert data[..i + 1] == data[..i] + [data[i]];
    assert CodeBits(ret, 0) + (ToBits(v, rlen) + ToBits(data[i], 8)) ==
           CodeBits(ret, 0) + ToBits(v, rlen) + ToBits(data[i], 8);
  }

  lemma TakeCode(ret: seq<nat>, v: nat, bits: nat, rlen: nat)
    requires bits == Width(|ret|) && v < Pow2(rlen + bits)
    ensures Shr(v, rlen) < Pow2(bits) && Low(v, rlen) < Pow2(rlen)
    ensures CodeBits(ret + [Shr(v, rlen)], 0) + ToBits(Low(v, rlen), rlen) == CodeBits(ret, 0) + ToBits(v, rlen + bits)
  {
    hide Shr, Low, Pow2, ToBits, CodeBits, Width;
    assert bits + rlen == rlen + bits;
    ShrLow(v, rlen);
    ShrBound(v, bits, rlen);
    Split(v, bits, rlen);
    CodeBitsSnoc(ret, Shr(v, rlen), 0);
  }

  /** Packing and unpacking: codes below 256 + k come back, and the zeros that fill the last byte never
      make one more. */
  lemma UnpackPacked(codes: seq<nat>, bytes: seq<Byte>)
    requires Fits(codes) && Packs(bytes, CodeBits(codes, 0))
    ensures CodesOf(BytesBits(bytes), 0) == codes
  {
    hide Pow2, Width, CodeBits, BytesBits, CodesOf;
    var pad: nat :| pad < 8 && BytesBits(bytes) == CodeBits(codes, 0) + Zeros(pad);
    FittingIsNarrow(codes, 0);
    WidthIsLeast(|codes|);
    CodesOfCodeBits(codes, 0, Zeros(pad));
  }
}
