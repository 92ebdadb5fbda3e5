/** The run-length codec of cel_compress.c: cel_rle_encode_string and cel_rle_decode_string. */
module Rle {
  import opened Common

  const MAX_LENGTH: nat := 127

  // ---------- repeats ----------

  /** The length of the run at the front, counted up to a limit. */
  function Run(x: seq<Byte>, b: Byte, limit: nat): (n: nat)
    ensures n <= limit && n <= |x|
    decreases limit
  {
    if limit == 0 || x == [] || x[0] != b then 0 else 1 + Run(x[1..], b, limit - 1)
  }

  /** Three equal bytes in a row. */
  predicate Triple(x: seq<Byte>, i: nat) { i + 2 < |x| && x[i] == x[i + 1] == x[i + 2] }

  /** The first place with three equal bytes in a row, or the length of the input. */
  function FirstTriple(x: seq<Byte>): (i: nat)
    ensures i <= |x|
  {
    if x == [] || Triple(x, 0) then 0 else 1 + FirstTriple(x[1..])
  }

  /** It is a place with three equal bytes, and none is before it. */
  lemma {:induction false} FirstTripleIsFirst(x: seq<Byte>)
    ensures var i := FirstTriple(x); (i < |x| ==> Triple(x, i)) && forall k: nat :: k < i ==> !Triple(x, k)
  {
    if x != [] && !Triple(x, 0) {
      FirstTripleIsFirst(x[1..]);
      var i := 1 + FirstTriple(x[1..]);
      forall k: nat | k < i ensures !Triple(x, k) {
        assert k > 0 ==> !Triple(x[1..], k - 1);
      }
    }
  }

  lemma {:induction false} RunIsEqual(x: seq<Byte>, b: Byte, limit: nat)
    ensures var n := Run(x, b, limit);
            && (forall k :: 0 <= k < n ==> x[k] == b)
            && (n < limit && n < |x| ==> x[n] != b)
    decreases limit
  {
    if limit > 0 && x != [] && x[0] == b {
      RunIsEqual(x[1..], b, limit - 1);
      var n := Run(x[1..], b, limit - 1);
      forall k | 0 <= k < 1 + n ensures x[k] == b {
        if k > 0 {
          assert x[k] == x[1..][k - 1];
        }
      }
    }
  }

  /** A run is determined by where it stops. */
  lemma {:induction false} RunIs(x: seq<Byte>, b: Byte, limit: nat, n: nat)
    requires n <= limit && n <= |x| && forall k :: 0 <= k < n ==> x[k] == b
    requires n < limit && n < |x| ==> x[n] != b
    ensures Run(x, b, limit) == n
    decreases limit
  {
    if n > 0 {
      assert x[0] == b;
      forall k | 0 <= k < n - 1 ensures x[1..][k] == b {
        assert x[1..][k] == x[k + 1];
      }
      RunIs(x[1..], b, limit - 1, n - 1);
    }
  }

  lemma NoTriples()
    ensures FirstTriple([]) == 0
  {
  }

  /** What a scan that has counted `p` equal bytes from `i` on has found out. */
  lemma RunFrom(x: seq<Byte>, i: nat, p: nat)
    requires i < |x| && 1 <= p <= MAX_LENGTH && i + p <= |x| && forall k :: i <= k < i + p ==> x[k] == x[i]
    requires p < MAX_LENGTH && i + p < |x| ==> x[i + p] != x[i]
    ensures p == Run(x[i..], x[i], MAX_LENGTH)
    ensures FirstTriple(x[i..]) == if p > 2 then 0 else p + FirstTriple(x[i + p..])
  {
    var y := x[i..];
    assert forall k :: 0 <= k < p ==> y[k] == x[i + k];
    assert p < |y| ==> y[p] == x[i + p];
    RunIs(y, x[i], MAX_LENGTH, p);
    hide Run;
    if p > 2 {
      assert y[0] == y[1] == y[2];
      assert Triple(y, 0);
    } else {
      NoTripleYet(y, p);
      assert y[p..] == x[i + p..];
    }
  }

  /** next_least3_repeat: the first run of at least three, and its length up to 127. */
  method NextLeast3Repeat(inbuff: seq<Byte>, start: nat) returns (idx: int, len: nat)
    requires start <= |inbuff|
    ensures idx == -1 <==> FirstTriple(inbuff[start..]) == |inbuff| - start
    ensures idx != -1 ==>
              && start <= idx < |inbuff| && idx == start + FirstTriple(inbuff[start..])
              && len == Run(inbuff[idx..], inbuff[idx], MAX_LENGTH) && 3 <= len <= MAX_LENGTH
  {
    hide Run, FirstTriple;
    len := 0;
    var i := start;
    while i < |inbuff|
      invariant start <= i <= |inbuff|
      invariant FirstTriple(inbuff[start..]) == i - start + FirstTriple(inbuff[i..])
    {
      var val := inbuff[i];
      var p, j := 0, i;
      while j < |inbuff| && p < MAX_LENGTH && inbuff[j] == val
        invariant i <= j <= |inbuff| && p == j - i && p <= MAX_LENGTH
        invariant forall k :: i <= k < j ==> inbuff[k] == val
      {
        j := j + 1;
        p := p + 1;
      }
      RunFrom(inbuff, i, p);
      if p > 2 {
        return i, p;
      }
      i := i + (if p > 1 then p else 1);
    }
    assert inbuff[|inbuff|..] == [];
    NoTriples();
    idx := -1;
  }

  /** A run of one or two bytes can be passed over. */
  lemma NoTripleYet(x: seq<Byte>, step: nat)
    requires 1 <= step <= 2 && step <= |x|
    requires step == 2 ==> x[0] == x[1]
    requires step < |x| ==> x[step] != x[0]
    ensures FirstTriple(x) == step + FirstTriple(x[step..])
  {
    assert !Triple(x, 0);
    if step == 2 {
      assert !Triple(x[1..], 0);
      assert x[1..][1..] == x[2..];
    }
  }

  // ---------- packets ----------

  /** What one or more bytes of a code stand for: a repeated byte, or bytes as they are. */
  datatype Packet = Repeat(b: Byte, n: nat) | Literal(s: seq<Byte>)

  predicate Codable(p: Packet) { if p.Repeat? then p.n <= MAX_LENGTH else |p.s| <= MAX_LENGTH }

  predicate AllCodable(ps: seq<Packet>) { forall i :: 0 <= i < |ps| ==> Codable(ps[i]) }

  function Wire(p: Packet): seq<Byte>
    requires Codable(p)
  {
    if p.Repeat? then [128 + p.n, p.b] else [|p.s|] + p.s
  }

  function Meaning(p: Packet): seq<Byte> { if p.Repeat? then seq(p.n, _ => p.b) else p.s }

  function Wires(ps: seq<Packet>): seq<Byte>
    requires AllCodable(ps)
  {
    if ps == [] then [] else Wire(ps[0]) + Wires(ps[1..])
  }

  function Meanings(ps: seq<Packet>): seq<Byte> { if ps == [] then [] else Meaning(ps[0]) + Meanings(ps[1..]) }

  lemma {:induction false} MeaningsConcat(ps: seq<Packet>, qs: seq<Packet>)
    ensures Meanings(ps + qs) == Meanings(ps) + Meanings(qs)
  {
    if ps == [] {
      assert ps + qs == qs;
    } else {
      hide Meaning, Meanings;
      MeaningsConcat(ps[1..], qs);
      MeaningsCons(ps);
      MeaningsCons(ps + qs);
      FirstOfConcat(ps, qs);
      Associates(Meaning(ps[0]), Meanings(ps[1..]), Meanings(qs));
    }
  }

  lemma MeaningsCons(ps: seq<Packet>)
    requires ps != []
    ensures Meanings(ps) == Meaning(ps[0]) + Meanings(ps[1..])
  {
    hide Meaning;
  }

  lemma {:induction false} WiresConcat(ps: seq<Packet>, qs: seq<Packet>)
    requires AllCodable(ps) && AllCodable(qs)
    ensures Wires(ps + qs) == Wires(ps) + Wires(qs)
  {
    hide Wire;
    if ps == [] {
      assert ps + qs == qs;
    } else {
      WiresConcat(ps[1..], qs);
      assert (ps + qs)[1..] == ps[1..] + qs;
      var w, a, b := Wire(ps[0]), Wires(ps[1..]), Wires(qs);
      assert Wires(ps + qs) == w + (a + b) && Wires(ps) == w + a;
      hide *;
      assert w + (a + b) == w + a + b;
    }
  }

  lemma MeaningsAround(ps: seq<Packet>, p: Packet, qs: seq<Packet>)
    ensures Meanings(ps + [p] + qs) == Meanings(ps) + Meaning(p) + Meanings(qs)
  {
    hide Meaning;
    MeaningsConcat(ps + [p], qs);
    MeaningsConcat(ps, [p]);
    assert [p][1..] == [] && Meaning(p) + [] == Meaning(p);
  }

  lemma WiresAround(ps: seq<Packet>, p: Packet, qs: seq<Packet>)
    requires AllCodable(ps) && Codable(p) && AllCodable(qs) && AllCodable(ps + [p] + qs)
    ensures Wires(ps + [p] + qs) == Wires(ps) + Wire(p) + Wires(qs)
  {
    hide Wire, Codable;
    assert AllCodable([p]);
    WiresConcat(ps + [p], qs);
    WiresConcat(ps, [p]);
    assert [p][1..] == [] && Wire(p) + [] == Wire(p);
  }

  // ---------- encoder ----------

  /** What the encoder puts out: repeats of 3 to 127 bytes, and 1 to 127 bytes as they are. */
  predicate Fits(p: Packet)
  {
    Codable(p) && if p.Repeat? then p.n >= 3 else |p.s| >= 1
  }

  predicate AllFit(ps: seq<Packet>)
    ensures AllFit(ps) ==> AllCodable(ps)
  {
    forall i :: 0 <= i < |ps| ==> Fits(ps[i])
  }

  /** Bytes as they are, in packets of at most 127. */
  function Literals(x: seq<Byte>): (ps: seq<Packet>)
    ensures AllFit(ps)
    decreases |x|
  {
    if x == [] then []
    else if |x| <= MAX_LENGTH then [Literal(x)]
    else [Literal(x[..MAX_LENGTH])] + Literals(x[MAX_LENGTH..])
  }

  /** The packets of an input: those before the first repeat, the repeat, and those of the rest. */
  function Plan(x: seq<Byte>): (ps: seq<Packet>)
    ensures AllFit(ps)
    decreases |x|
  {
    var p := FirstTriple(x);
    if p == |x| then Literals(x)
    else
      var len := Run(x[p..], x[p], MAX_LENGTH);
      RunAtFirst(x);
      Literals(x[..p]) + [Repeat(x[p], len)] + Plan(x[p + len..])
  }

  lemma RunAtFirst(x: seq<Byte>)
    requires FirstTriple(x) < |x|
    ensures var p := FirstTriple(x); 3 <= Run(x[p..], x[p], MAX_LENGTH) <= |x| - p
  {
    FirstTripleIsFirst(x);
    RunAtTriple(x, FirstTriple(x));
  }

  lemma RunAtTriple(x: seq<Byte>, p: nat)
    requires Triple(x, p)
    ensures 3 <= Run(x[p..], x[p], MAX_LENGTH) <= |x| - p
  {
    RunIsEqual(x[p..], x[p], MAX_LENGTH);
    assert x[p..][0] == x[p] && x[p..][1] == x[p + 1] && x[p..][2] == x[p + 2];
  }

  function LiteralCode(x: seq<Byte>): seq<Byte> { Wires(Literals(x)) }

  function Code(x: seq<Byte>): seq<Byte> { Wires(Plan(x)) }

  /** The packets of 127 bytes, and one for the few bytes left. */
  method AppendLiterals(sb: seq<Byte>, inbuff: seq<Byte>, last: nat, p: nat) returns (sb': seq<Byte>)
    requires last <= p <= |inbuff|
    ensures sb' == sb + LiteralCode(inbuff[last..p])
  {
    hide LiteralCode;
    var buckets := (p - last) / 127;
    var t := last;
    sb' := sb;
    var i := 0;
    while i < buckets
      invariant 0 <= i <= buckets && t == last + 127 * i && t <= p
      invariant sb' + LiteralCode(inbuff[t..p]) == sb + LiteralCode(inbuff[last..p])
    {
      Bucket(inbuff[t..p]);
      assert inbuff[t..p][..MAX_LENGTH] == inbuff[t..t + 127] && inbuff[t..p][MAX_LENGTH..] == inbuff[t + 127..p];
      sb' := sb' + [127];
      sb' := sb' + inbuff[t..t + 127];
      t := t + 127;
      i := i + 1;
    }
    FewLeft(inbuff[t..p]);
    if t < p {
      sb' := sb' + [p - t];
      sb' := sb' + inbuff[t..p];
    }
  }

  lemma Bucket(x: seq<Byte>)
    requires |x| >= MAX_LENGTH
    ensures LiteralCode(x) == [MAX_LENGTH] + x[..MAX_LENGTH] + LiteralCode(x[MAX_LENGTH..])
  {
    if |x| == MAX_LENGTH {
      FewLeft(x);
      assert x[..MAX_LENGTH] == x && x[MAX_LENGTH..] == [];
    }
  }

  lemma FewLeft(x: seq<Byte>)
    requires |x| <= MAX_LENGTH
    ensures LiteralCode(x) == if x == [] then [] else [|x|] + x
  {
    if x != [] {
      var ps := Literals(x);
      assert ps == [Literal(x)] && ps[1..] == [];
      assert Wires(ps) == Wire(ps[0]) + Wires(ps[1..]) == Wire(Literal(x)) + [];
      assert Wire(Literal(x)) + [] == [|x|] + x;
    }
  }

  /** cel_rle_encode_string */
  method Encode(inbuff: seq<Byte>) returns (sb: seq<Byte>)
    ensures sb == Code(inbuff)
  {
    hide Code, LiteralCode, FirstTriple, Run;
    sb := [];
    var last, p, len := 0, -1, 0;
    if last < |inbuff| {
      p, len := NextLeast3Repeat(inbuff, last);
    }
    assert inbuff[0..] == inbuff;
    while last < |inbuff| && p != -1
      invariant 0 <= last <= |inbuff|
      invariant sb + Code(inbuff[last..]) == Code(inbuff)
      invariant last < |inbuff| ==> (p == -1 <==> FirstTriple(inbuff[last..]) == |inbuff| - last)
      invariant last < |inbuff| && p != -1 ==>
                  last <= p < |inbuff| && p == last + FirstTriple(inbuff[last..])
                  && len == Run(inbuff[p..], inbuff[p], MAX_LENGTH) && 3 <= len <= MAX_LENGTH
      decreases |inbuff| - last
    {
      ghost var x, q := inbuff[last..], p - last;
      assert x[..q] == inbuff[last..p] && x[q..] == inbuff[p..] && x[q + len..] == inbuff[p + len..];
      CodeStep(x, q, len);
      FewLeft([]);
      ghost var before := sb;
      ghost var lits, rep, rest := LiteralCode(x[..q]), [128 + len, inbuff[p]], Code(x[q + len..]);
      assert before + (lits + rep + rest) == before + lits + rep + rest;
      if p > last {
        sb := AppendLiterals(sb, inbuff, last, p);
      } else {
        assert x[..q] == [];
      }
      assert sb == before + lits;
      assert before + lits + [128 + len] + [inbuff[p]] == before + lits + rep;
      sb := sb + [128 + len];
      sb := sb + [inbuff[p]];
      last := p + len;
      if last < |inbuff| {
        p, len := NextLeast3Repeat(inbuff, last);
      }
    }
    ghost var x := inbuff[last..];
    PlanTail(x);
    if last < |inbuff| {
      assert inbuff[last..|inbuff|] == x;
      sb := AppendLiterals(sb, inbuff, last, |inbuff|);
    }
  }

  lemma PlanStep(x: seq<Byte>, p: nat, len: nat)
    requires p == FirstTriple(x) < |x| && len == Run(x[p..], x[p], MAX_LENGTH) && len <= |x| - p
    ensures Plan(x) == Literals(x[..p]) + [Repeat(x[p], len)] + Plan(x[p + len..])
  {
    hide Literals, FirstTriple, Run;
  }

  lemma CodeStep(x: seq<Byte>, p: nat, len: nat)
    requires p == FirstTriple(x) < |x| && len == Run(x[p..], x[p], MAX_LENGTH) && len <= |x| - p
    ensures Code(x) == LiteralCode(x[..p]) + [128 + len, x[p]] + Code(x[p + len..])
  {
    PlanStep(x, p, len);
    hide Plan, Literals, FirstTriple, Run, AllFit, AllCodable, Wires;
    WiresAround(Literals(x[..p]), Repeat(x[p], len), Plan(x[p + len..]));
  }

  lemma PlanTail(x: seq<Byte>)
    requires FirstTriple(x) == |x|
    ensures Code(x) == LiteralCode(x) && (x == [] ==> Code(x) == [])
  {
  }

  // ---------- decoder ----------

  /** The bytes that a code stands for; None if a packet is cut short, where the source reads past the end. */
  function Decoded(x: seq<Byte>): Option<seq<Byte>>
    decreases |x|
  {
    if x == [] then Some([])
    else
      var len := x[0] % 128;
      if x[0] >= 128 then
        if |x| < 2 then None else Prepend(Meaning(Repeat(x[1], len)), Decoded(x[2..]))
      else
        if |x| < 1 + len then None else Prepend(x[1..1 + len], Decoded(x[1 + len..]))
  }

  function Prepend(s: seq<Byte>, o: Option<seq<Byte>>): Option<seq<Byte>>
  {
    match o
    case None => None
    case Some(t) => Some(s + t)
  }

  lemma PrependTwice(s: seq<Byte>, t: seq<Byte>, o: Option<seq<Byte>>)
    ensures Prepend(s, Prepend(t, o)) == Prepend(s + t, o)
    ensures Prepend([], o) == o
  {
    match o
    case None =>
    case Some(u) =>
      assert s + (t + u) == s + t + u;
      assert [] + u == u;
  }

  /** cel_rle_decode_string, on input it does not read past. */
  method Decode(inbuff: seq<Byte>) returns (sb: seq<Byte>)
    requires Decoded(inbuff).Some?
    ensures Decoded(inbuff) == Some(sb)
  {
    hide Prepend, Decoded;
    sb := [];
    var i := 0;
    assert inbuff[0..] == inbuff;
    PrependTwice([], [], Decoded(inbuff));
    PrependNone(sb, Decoded(inbuff));
    while i < |inbuff|
      invariant 0 <= i <= |inbuff|
      invariant Decoded(inbuff[i..]).Some? && Decoded(inbuff) == Prepend(sb, Decoded(inbuff[i..]))
    {
      var val := inbuff[i];
      var len := val % 128;
      if val >= 128 {
        NextRepeat(inbuff, i, sb);
        sb := sb + seq(len, _ => inbuff[i + 1]);
        i := i + 2;
      } else {
        NextLiteral(inbuff, i, sb);
        sb := sb + inbuff[i + 1..i + 1 + len];
        i := i + (len + 1);
      }
    }
    DecodedNothing();
    assert inbuff[i..] == [];
    PrependNone(sb, Some([]));
  }

  lemma DecodedNothing()
    ensures Decoded([]) == Some([])
  {
  }

  lemma NextRepeat(x: seq<Byte>, i: nat, sb: seq<Byte>)
    requires i < |x| && x[i] >= 128 && Decoded(x[i..]).Some? && Decoded(x) == Prepend(sb, Decoded(x[i..]))
    ensures i + 2 <= |x| && Decoded(x[i + 2..]).Some?
    ensures Decoded(x) == Prepend(sb + seq(x[i] % 128, _ => x[i + 1]), Decoded(x[i + 2..]))
  {
    var y, m := x[i..], seq(x[i] % 128, _ => x[i + 1]);
    assert |y| >= 2 && y[2..] == x[i + 2..] && y[0] == x[i] && y[1] == x[i + 1];
    assert Meaning(Repeat(y[1], y[0] % 128)) == m;
    assert Decoded(y) == Prepend(m, Decoded(y[2..]));
    hide Prepend, Decoded;
    PrependNone(m, Decoded(y[2..]));
    PrependTwice(sb, m, Decoded(y[2..]));
  }

  lemma LiteralFirst(y: seq<Byte>)
    requires y != [] && y[0] < 128 && Decoded(y).Some?
    ensures var len := y[0] % 128;
            |y| >= 1 + len && Decoded(y) == Prepend(y[1..1 + len], Decoded(y[1 + len..]))
  {
    hide Prepend;
  }

  lemma NextLiteral(x: seq<Byte>, i: nat, sb: seq<Byte>)
    requires i < |x| && x[i] < 128 && Decoded(x[i..]).Some? && Decoded(x) == Prepend(sb, Decoded(x[i..]))
    ensures var len := x[i] % 128;
            && i + 1 + len <= |x| && Decoded(x[i + 1 + len..]).Some?
            && Decoded(x) == Prepend(sb + x[i + 1..i + 1 + len], Decoded(x[i + 1 + len..]))
  {
    hide Prepend, Decoded;
    var y, len := x[i..], x[i] % 128;
    LiteralFirst(y);
    assert y[1 + len..] == x[i + 1 + len..] && y[1..1 + len] == x[i + 1..i + 1 + len];
    PrependNone(y[1..1 + len], Decoded(y[1 + len..]));
    PrependTwice(sb, y[1..1 + len], Decoded(y[1 + len..]));
  }

  lemma PrependNone(s: seq<Byte>, o: Option<seq<Byte>>)
    ensures Prepend(s, o).None? <==> o.None?
    ensures o == Some([]) ==> Prepend(s, o) == Some(s)
  {
    assert s + [] == s;
  }

  // ---------- round trip ----------

  lemma DecodedRepeat(b: Byte, n: nat, rest: seq<Byte>)
    requires n <= MAX_LENGTH
    ensures Decoded([128 + n, b] + rest) == Prepend(Meaning(Repeat(b, n)), Decoded(rest))
  {
    hide Prepend, Meaning;
    var y := [128 + n, b] + rest;
    assert y[0] == 128 + n && y[1] == b && y[2..] == rest;
    assert y[0] % 128 == n;
  }

  lemma DecodedLiteral(s: seq<Byte>, rest: seq<Byte>)
    requires |s| <= MAX_LENGTH
    ensures Decoded([|s|] + s + rest) == Prepend(s, Decoded(rest))
  {
    hide Prepend;
    var y := [|s|] + s + rest;
    assert y[0] == |s| && y[1..1 + |s|] == s && y[1 + |s|..] == rest;
    assert y[0] % 128 == |s|;
  }

  lemma DecodedWire(p: Packet, rest: seq<Byte>)
    requires Codable(p)
    ensures Decoded(Wire(p) + rest) == Prepend(Meaning(p), Decoded(rest))
  {
    hide Prepend, Decoded;
    if p.Repeat? {
      DecodedRepeat(p.b, p.n, rest);
    } else {
      DecodedLiteral(p.s, rest);
    }
  }

  /** The decoder takes any list of packets for what it means, also those the encoder never puts out. */
  lemma {:induction false} DecodedWires(ps: seq<Packet>)
    requires AllCodable(ps)
    ensures Decoded(Wires(ps)) == Some(Meanings(ps))
  {
    if ps != [] {
      DecodedWires(ps[1..]);
      DecodedWire(ps[0], Wires(ps[1..]));
    }
  }

  /** What is decoded is a list of packets. */
  lemma {:induction false} PacketsFound(x: seq<Byte>) returns (ps: seq<Packet>)
    requires Decoded(x).Some?
    ensures AllCodable(ps) && Wires(ps) == x
    decreases |x|
  {
    ps := [];
    if x != [] {
      var p, k := FirstPacket(x);
      hide *;
      var rest := PacketsFound(x[k..]);
      ps := [p] + rest;
      PacketsCons(p, rest);
      assert x == x[..k] + x[k..];
    }
  }

  lemma FirstPacket(x: seq<Byte>) returns (p: Packet, k: nat)
    requires x != [] && Decoded(x).Some?
    ensures 0 < k <= |x| && Codable(p) && Wire(p) == x[..k] && Decoded(x[k..]).Some?
  {
    hide Prepend;
    var len := x[0] % 128;
    p, k := if x[0] >= 128 then Repeat(x[1], len) else Literal(x[1..1 + len]), if x[0] >= 128 then 2 else 1 + len;
    PrependNone(Meaning(p), Decoded(x[k..]));
    hide Decoded;
    assert Wire(p) == x[..k];
  }

  lemma PacketsCons(p: Packet, ps: seq<Packet>)
    requires Codable(p) && AllCodable(ps)
    ensures AllCodable([p] + ps) && Wires([p] + ps) == Wire(p) + Wires(ps) && AllCodable([])
  {
    hide Wire, Codable;
    FirstOfConcat([p], ps);
    assert [p][1..] + ps == ps;
  }

  /** So a code is decoded exactly if it is a list of whole packets. */
  lemma DecodedIff(x: seq<Byte>, y: seq<Byte>)
    ensures Decoded(x) == Some(y) <==> exists ps :: AllCodable(ps) && Wires(ps) == x && Meanings(ps) == y
  {
    hide Decoded, Wires, Meanings;
    if Decoded(x).Some? {
      var ps := PacketsFound(x);
      DecodedWires(ps);
    }
    if ps :| AllCodable(ps) && Wires(ps) == x && Meanings(ps) == y {
      DecodedWires(ps);
    }
  }

  lemma {:induction false} LiteralsMean(x: seq<Byte>)
    ensures Meanings(Literals(x)) == x
    decreases |x|
  {
    if 0 < |x| <= MAX_LENGTH {
      assert Literals(x)[1..] == [] && x + [] == x;
    } else if |x| > MAX_LENGTH {
      LiteralsMean(x[MAX_LENGTH..]);
      assert x[..MAX_LENGTH] + x[MAX_LENGTH..] == x;
    }
  }

  lemma RunMeans(x: seq<Byte>, p: nat, len: nat)
    requires p < |x| && len == Run(x[p..], x[p], MAX_LENGTH) && len <= |x| - p
    ensures Meaning(Repeat(x[p], len)) == x[p..p + len]
  {
    RunIsEqual(x[p..], x[p], MAX_LENGTH);
    var s := x[p..p + len];
    forall k | 0 <= k < len ensures s[k] == x[p] {
      assert x[p..][k] == x[p];
    }
  }

  lemma PlanMeansStep(x: seq<Byte>, p: nat, len: nat)
    requires p == FirstTriple(x) < |x| && len == Run(x[p..], x[p], MAX_LENGTH) && len <= |x| - p
    ensures Meanings(Plan(x)) == x[..p] + x[p..p + len] + Meanings(Plan(x[p + len..]))
  {
    hide Literals, FirstTriple, Run, Meaning, Meanings;
    RunMeans(x, p, len);
    LiteralsMean(x[..p]);
    MeaningsAround(Literals(x[..p]), Repeat(x[p], len), Plan(x[p + len..]));
  }

  lemma {:induction false} PlanMeans(x: seq<Byte>)
    ensures Meanings(Plan(x)) == x
    decreases |x|
  {
    hide Meanings, Literals, FirstTriple, Run;
    var p := FirstTriple(x);
    if p == |x| {
      LiteralsMean(x);
    } else {
      var len := Run(x[p..], x[p], MAX_LENGTH);
      RunAtFirst(x);
      PlanMeansStep(x, p, len);
      PlanMeans(x[p + len..]);
      assert x[..p] + x[p..p + len] + x[p + len..] == x;
    }
  }

  /** Round trip: the code of any byte string is one of packets that fit, and decoding it gives the string back. */
  lemma RoundTrip(x: seq<Byte>)
    ensures AllFit(Plan(x))
    ensures Decoded(Code(x)) == Some(x)
  {
    PlanMeans(x);
    DecodedWires(Plan(x));
  }

  /** The two methods, one after the other. */
  method EncodeDecode(x: seq<Byte>) returns (code: seq<Byte>, y: seq<Byte>)
    ensures y == x && |code| <= |x| + Packets(|x|)
  {
    code := Encode(x);
    RoundTrip(x);
    SizeBound(x);
    y := Decode(code);
  }

  // ---------- size ----------

  /** The number of packets of 127 that hold `n` bytes. */
  function Packets(n: nat): nat { (n + 126) / 127 }

  lemma {:induction false} LiteralsSize(x: seq<Byte>)
    ensures |LiteralCode(x)| == |x| + Packets(|x|)
    decreases |x|
  {
    if |x| <= MAX_LENGTH {
      FewLeft(x);
    } else {
      LiteralsSize(x[MAX_LENGTH..]);
      Bucket(x);
    }
  }

  /** The code is at most one byte in 127 longer than the input. */
  lemma {:induction false} SizeBound(x: seq<Byte>)
    ensures |Code(x)| <= |x| + Packets(|x|)
    decreases |x|
  {
    var p := FirstTriple(x);
    if p == |x| {
      LiteralsSize(x);
    } else {
      var len := Run(x[p..], x[p], MAX_LENGTH);
      RunAtFirst(x);
      CodeStep(x, p, len);
      hide Code, LiteralCode, FirstTriple, Run;
      LiteralsSize(x[..p]);
      SizeBound(x[p + len..]);
      assert Packets(p) + Packets(|x| - p - len) <= 1 + Packets(|x|);
    }
  }

  // ---------- which code it is ----------

  /** The code of an input, byte by byte. Where three equal bytes begin it is their number and 128, and the byte:
      all of them up to 127. Elsewhere it is a number up to 127 and so many bytes, as many as there are before
      the next three equal ones. */
  predicate IsCode(x: seq<Byte>, c: seq<Byte>)
    decreases |c|
  {
    if x == [] || c == [] then x == [] && c == []
    else if Triple(x, 0) then
      var n := c[0] as int - 128;
      && 3 <= n <= 127 && |c| >= 2 && c[1] == x[0] && n <= |x|
      && (forall k :: 0 <= k < n ==> x[k] == x[0]) && (n < 127 && n < |x| ==> x[n] != x[0])
      && IsCode(x[n..], c[2..])
    else
      var n := c[0];
      && 1 <= n <= 127 && n < |c| && n <= |x| && c[1..1 + n] == x[..n]
      && (forall k: nat :: k < n ==> !Triple(x, k)) && (n < 127 && n < |x| ==> Triple(x, n))
      && IsCode(x[n..], c[1 + n..])
  }

  lemma {:induction false} CodeIsCode(x: seq<Byte>)
    ensures IsCode(x, Code(x))
    decreases |x|
  {
    hide Code, LiteralCode, FirstTriple, Run, IsCode;
    if x == [] {
      NothingCoded();
    } else if Triple(x, 0) {
      var n := Run(x, x[0], MAX_LENGTH);
      FirstRepeat(x);
      CodeIsCode(x[n..]);
      RepeatIsCode(x, n, Code(x[n..]));
    } else {
      var n := FirstLiteral(x);
      CodeIsCode(x[n..]);
      LiteralIsCode(x, n, Code(x[n..]));
    }
  }

  lemma NothingCoded()
    ensures Code([]) == [] && IsCode([], [])
  {
    NoTriples();
  }

  lemma FirstRepeat(x: seq<Byte>)
    requires Triple(x, 0)
    ensures var n := Run(x, x[0], MAX_LENGTH);
            && 3 <= n <= 127 && n <= |x| && Code(x) == [128 + n, x[0]] + Code(x[n..])
            && (forall k :: 0 <= k < n ==> x[k] == x[0]) && (n < 127 && n < |x| ==> x[n] != x[0])
  {
    hide *;
    assert x[0..] == x;
    RunAtTriple(x, 0);
    RunIsEqual(x, x[0], MAX_LENGTH);
    AtTriple(x);
    var n := Run(x, x[0], MAX_LENGTH);
    CodeStep(x, 0, n);
    FewLeft([]);
    assert x[..0] == [] && x[0 + n..] == x[n..];
    assert [] + [128 + n, x[0]] == [128 + n, x[0]];
  }

  lemma AtTriple(x: seq<Byte>)
    requires Triple(x, 0)
    ensures FirstTriple(x) == 0 && |x| > 2 && MAX_LENGTH == 127
  {
  }

  lemma RepeatIsCode(x: seq<Byte>, n: nat, rest: seq<Byte>)
    requires Triple(x, 0) && 3 <= n <= 127 && n <= |x| && IsCode(x[n..], rest)
    requires (forall k :: 0 <= k < n ==> x[k] == x[0]) && (n < 127 && n < |x| ==> x[n] != x[0])
    ensures IsCode(x, [128 + n, x[0]] + rest)
  {
    assert ([128 + n, x[0]] + rest)[2..] == rest;
  }

  lemma LiteralIsCode(x: seq<Byte>, n: nat, rest: seq<Byte>)
    requires x != [] && !Triple(x, 0) && 1 <= n <= 127 && n <= |x| && IsCode(x[n..], rest)
    requires (forall k: nat :: k < n ==> !Triple(x, k)) && (n < 127 && n < |x| ==> Triple(x, n))
    ensures IsCode(x, [n] + x[..n] + rest)
  {
    var c := [n] + x[..n] + rest;
    assert c[1..1 + n] == x[..n] && c[1 + n..] == rest;
  }

  /** The bytes before the next three equal ones, at most 127 of them, come first. */
  lemma FirstLiteral(x: seq<Byte>) returns (n: nat)
    requires x != [] && !Triple(x, 0)
    ensures 1 <= n <= 127 && n <= |x| && Code(x) == [n] + x[..n] + Code(x[n..])
    ensures (forall k: nat :: k < n ==> !Triple(x, k)) && (n < 127 && n < |x| ==> Triple(x, n))
  {
    FirstTripleIsFirst(x);
    var p := FirstTriple(x);
    assert p > 0;
    n := if p < 127 then p else 127;
    LaterTriple(x, n);
    hide Code, LiteralCode, FirstTriple, Run;
    if p == |x| {
      PlanTail(x);
      PlanTail(x[n..]);
      LiteralHead(x, n);
    } else {
      RunAtFirst(x);
      var len := Run(x[p..], x[p], MAX_LENGTH);
      CodeStep(x, p, len);
      LiteralHead(x[..p], n);
      CodeRest(x, p, n, len);
      Associates([n] + x[..n], LiteralCode(x[n..p]), [128 + len, x[p]]);
      Associates([n] + x[..n], LiteralCode(x[n..p]) + [128 + len, x[p]], Code(x[p + len..]));
    }
  }

  /** Bytes passed over do not change where the triple is. */
  lemma {:induction false} LaterTriple(x: seq<Byte>, n: nat)
    requires n <= FirstTriple(x)
    ensures FirstTriple(x[n..]) == FirstTriple(x) - n
  {
    if n > 0 {
      LaterTriple(x[1..], n - 1);
      assert x[1..][n - 1..] == x[n..];
    } else {
      assert x[0..] == x;
    }
  }

  lemma LiteralHead(x: seq<Byte>, n: nat)
    requires x != [] && n == if |x| < 127 then |x| else 127
    ensures LiteralCode(x) == [n] + x[..n] + LiteralCode(x[n..])
  {
    if |x| >= 127 {
      Bucket(x);
    } else {
      FewLeft(x);
      FewLeft([]);
      assert x[..n] == x && x[n..] == [];
    }
  }

  lemma CodeRest(x: seq<Byte>, p: nat, n: nat, len: nat)
    requires p == FirstTriple(x) < |x| && n <= p && len == Run(x[p..], x[p], MAX_LENGTH) && len <= |x| - p
    ensures x[..p][..n] == x[..n] && x[..p][n..] == x[n..p]
    ensures Code(x[n..]) == LiteralCode(x[n..p]) + [128 + len, x[p]] + Code(x[p + len..])
  {
    hide *;
    LaterTriple(x, n);
    Slices(x, p, n, len);
    CodeStep(x[n..], p - n, len);
  }

  lemma Slices(x: seq<Byte>, p: nat, n: nat, len: nat)
    requires n <= p < |x| && len <= |x| - p
    ensures x[..p][..n] == x[..n] && x[..p][n..] == x[n..p]
    ensures var y := x[n..];
            && y[..p - n] == x[n..p] && y[p - n..] == x[p..] && y[p - n + len..] == x[p + len..] && y[p - n] == x[p]
            && |y| == |x| - n
  {
  }

  lemma {:induction false} OneCode(x: seq<Byte>, c: seq<Byte>, d: seq<Byte>)
    requires IsCode(x, c) && IsCode(x, d)
    ensures c == d
    decreases |x|
  {
    if x != [] {
      if Triple(x, 0) {
        SameRepeat(x, c[0] - 128, d[0] - 128);
        var n: nat := c[0] - 128;
        OneCode(x[n..], c[2..], d[2..]);
        assert c[..2] == [c[0], c[1]] && d[..2] == [d[0], d[1]];
        Cut(c, d, 2);
      } else {
        var n: nat := c[0];
        SameLiteral(x, n, d[0]);
        OneCode(x[n..], c[1 + n..], d[1 + n..]);
        assert c[..1 + n] == [n] + c[1..1 + n] && d[..1 + n] == [n] + d[1..1 + n];
        Cut(c, d, 1 + n);
      }
    }
  }

  lemma Cut(c: seq<Byte>, d: seq<Byte>, n: nat)
    requires n <= |c| && n <= |d| && c[..n] == d[..n] && c[n..] == d[n..]
    ensures c == d
  {
    assert c == c[..n] + c[n..] && d == d[..n] + d[n..];
  }

  lemma SameRepeat(x: seq<Byte>, m: nat, n: nat)
    requires 3 <= m <= 127 && 3 <= n <= 127 && m <= |x| && n <= |x|
    requires (forall k :: 0 <= k < m ==> x[k] == x[0]) && (m < 127 && m < |x| ==> x[m] != x[0])
    requires (forall k :: 0 <= k < n ==> x[k] == x[0]) && (n < 127 && n < |x| ==> x[n] != x[0])
    ensures m == n
  {
  }

  lemma SameLiteral(x: seq<Byte>, m: nat, n: nat)
    requires 1 <= m <= 127 && 1 <= n <= 127 && m <= |x| && n <= |x|
    requires (forall k: nat :: k < m ==> !Triple(x, k)) && (m < 127 && m < |x| ==> Triple(x, m))
    requires (forall k: nat :: k < n ==> !Triple(x, k)) && (n < 127 && n < |x| ==> Triple(x, n))
    ensures m == n
  {
    hide Triple;
  }

  /** The encoder puts out that code, and it is the only one. */
  lemma CodeIff(x: seq<Byte>, c: seq<Byte>)
    ensures c == Code(x) <==> IsCode(x, c)
  {
    hide Code, IsCode;
    CodeIsCode(x);
    if IsCode(x, c) {
      OneCode(x, c, Code(x));
    }
  }
}
