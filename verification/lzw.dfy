/** The LZW codec of cel_compress.c: cel_lzw_encode_string and cel_lzw_decode_string.  Dictionary keys and
    entries are C strings there, so a NUL byte ends them. */
module Lzw {
  import opened Common
  import opened BitPacking

  type Text = seq<Byte>

  /** What a C string function sees of a buffer. */
  function CStr(s: Text): Text {
    if s == [] || s[0] == 0 then [] else [s[0]] + CStr(s[1..])
  }

  predicate NoNul(s: Text) { 0 !in s }

  lemma {:induction false} CStrOfText(s: Text)
    ensures NoNul(CStr(s)) && (NoNul(s) ==> CStr(s) == s)
  {
    if s != [] && s[0] != 0 {
      CStrOfText(s[1..]);
    }
  }

  // ---------- encoder ----------

  /** The encoder's dictionary, from C strings to codes. */
  type Codes = map<Text, nat>

  /** The dictionary of single bytes; the entry of the NUL byte is the empty string. */
  function FirstCodes(): Codes { map w: Text | w in FirstWords() :: CodeOf(w) }

  function FirstWords(): set<Text> { set b: Byte | 0 <= b < 256 :: CStr([b]) }

  function CodeOf(w: Text): nat { if w == [] then 0 else w[0] }

  /** cel_ihashmap_get, which answers 0 for a missing key. */
  function Get(dict: Codes, key: Text): nat { if key in dict then dict[key] else 0 }

  /** The codes for phrase `s` followed by input `x`, with `next` the next free code. */
  function Encode(dict: Codes, next: nat, s: Text, x: Text): seq<nat>
    decreases |x|
  {
    if x == [] then [Get(dict, CStr(s))]
    else
      var t := s + [x[0]];
      if CStr(t) in dict then Encode(dict, next, t, x[1..])
      else
        var dict' := dict[CStr(t) := next];
        [Get(dict', CStr(s))] + Encode(dict', next + 1, [x[0]], x[1..])
  }

  /** The encode loop. */
  method EncodeCodes(inbuff: Text) returns (ret: seq<nat>)
    ensures ret == Encode(FirstCodes(), 256, [], inbuff)
  {
    var dsize := 256;
    var map' := FirstCodes();
    var S: Text := [];
    ret := [];
    var i := 0;
    while i < |inbuff|
      invariant 0 <= i <= |inbuff|
      invariant ret + Encode(map', dsize, S, inbuff[i..]) == Encode(FirstCodes(), 256, [], inbuff)
    {
      hide FirstCodes, CStr;
      var Z := inbuff[i];
      ghost var rest := Encode(map', dsize, S, inbuff[i..]);
      assert inbuff[i..][0] == Z && inbuff[i..][1..] == inbuff[i + 1..];
      S := S + [Z];
      if CStr(S) !in map' {
        map' := map'[CStr(S) := dsize];
        dsize := dsize + 1;
        S := S[..|S| - 1];
        ret := ret + [Get(map', CStr(S))];
        S := [Z];
      }
      i := i + 1;
    }
    ret := ret + [Get(map', CStr(S))];
  }

  // ---------- decoder ----------

  /** The decoder's table, from codes to C strings. */
  type Entries = map<nat, Text>

  function FirstEntries(): Entries { map c: nat | 0 <= c < 256 :: CStr([c]) }

  /** The first byte of a buffer, which is 0 when the buffer is empty. */
  function First(s: Text): Byte { if s == [] then 0 else s[0] }

  /** The entry for a code: the table's, or for a code not yet known the previous entry and its first byte. */
  function Entry(dict: Entries, s: Text, c: nat): Text {
    if c in dict then dict[c] else CStr(CStr(s) + [First(s)])
  }

  /** The text for a list of codes, after an entry `s`, with `next` the next code to define. */
  function Decode(dict: Entries, next: nat, s: Text, codes: seq<nat>): Text
    decreases |codes|
  {
    if codes == [] then []
    else
      var e := Entry(dict, s, codes[0]);
      e + Decode(dict[next := CStr(s + [First(e)])], next + 1, e, codes[1..])
  }

  /** The decode loop: the first pass defines code 255, whose entry is thereby replaced. */
  method DecodeCodes(codes: seq<nat>) returns (sb: Text)
    ensures sb == Decode(FirstEntries(), 255, [], codes)
  {
    var dsize := 256;
    var map' := FirstEntries();
    var S: Text := [];
    dsize := dsize - 1;
    sb := [];
    var i := 0;
    while i < |codes|
      invariant 0 <= i <= |codes| && dsize == 255 + i
      invariant sb + Decode(map', dsize, S, codes[i..]) == Decode(FirstEntries(), 255, [], codes)
    {
      hide FirstEntries, CStr;
      assert codes[i..][0] == codes[i] && codes[i..][1..] == codes[i + 1..];
      ghost var whole := sb + Decode(map', dsize, S, codes[i..]);
      ghost var old' := map';
      var entry;
      if codes[i] !in map' {
        var T := CStr(S);
        T := T + [First(S)];
        entry := CStr(T);
      } else {
        entry := map'[codes[i]];
      }
      assert entry == Entry(map', S, codes[i]);
      ghost var tail := Decode(map'[dsize := CStr(S + [First(entry)])], dsize + 1, entry, codes[i + 1..]);
      assert whole == sb + (entry + tail);
      hide Decode, Entry;
      Associates(sb, entry, tail);
      sb := sb + entry;
      map' := map'[dsize := CStr(S + [First(entry)])];
      dsize := dsize + 1;
      S := entry;
      i := i + 1;
    }
  }

  // ---------- both together ----------

  function CompressCodes(x: Text): seq<nat> { Encode(FirstCodes(), 256, [], x) }

  function DecompressCodes(codes: seq<nat>): Text { Decode(FirstEntries(), 255, [], codes) }

  /** cel_lzw_encode_string */
  method Compress(inbuff: Text) returns (sb: seq<Byte>)
    ensures Packs(sb, CodeBits(CompressCodes(inbuff), 0))
  {
    hide FirstCodes, Encode, CodeBits, Packs;
    EncodeFits(inbuff);
    var ret := EncodeCodes(inbuff);
    sb := Pack(ret);
  }

  /** cel_lzw_decode_string */
  method Decompress(inbuff: seq<Byte>) returns (sb: Text)
    ensures sb == DecompressCodes(CodesOf(BytesBits(inbuff), 0))
  {
    var ret := Unpack(inbuff);
    sb := DecodeCodes(ret);
  }

  /** What the encoder's dictionary always is: codes below the next free one, and every single byte. */
  predicate Ready(dict: Codes, next: nat) {
    && (forall w :: w in dict ==> dict[w] < next)
    && (forall b: Byte :: Single(b) in dict && dict[Single(b)] == b)
  }

  /** The key of a single byte. */
  function Single(b: Byte): Text { if b == 0 then [] else [b] }

  lemma SingleKey(b: Byte)
    ensures CStr([b]) == Single(b)
  {
    assert [b][1..] == [] && CStr([]) == [];
  }

  lemma FirstCodesReady()
    ensures Ready(FirstCodes(), 256)
    ensures forall w :: w in FirstCodes() ==> exists b: Byte :: w == Single(b)
  {
    forall b: Byte ensures Single(b) in FirstCodes() && FirstCodes()[Single(b)] == b {
      SingleKey(b);
      assert CStr([b]) in FirstWords();
    }
    forall w | w in FirstCodes() ensures exists b: Byte :: w == Single(b) {
      var b: Byte :| 0 <= b < 256 && w == CStr([b]);
      SingleKey(b);
    }
  }

  /** The k-th code is below 256 + k, so it fits the width it is written with. */
  lemma {:induction false} EncodeBelow(dict: Codes, next: nat, s: Text, x: Text)
    requires Ready(dict, next) && CStr(s) in dict
    ensures BelowFrom(Encode(dict, next, s, x), next)
    decreases |x|
  {
    hide CStr;
    if x != [] {
      var t := s + [x[0]];
      if CStr(t) in dict {
        EncodeBelow(dict, next, t, x[1..]);
      } else {
        var dict' := dict[CStr(t) := next];
        SingleKey(x[0]);
        assert Ready(dict', next + 1) by { ReadyNext(dict, next, CStr(t)); }
        EncodeBelow(dict', next + 1, [x[0]], x[1..]);
        assert dict'[CStr(s)] == dict[CStr(s)];
        BelowCons(dict[CStr(s)], Encode(dict', next + 1, [x[0]], x[1..]), next);
      }
    }
  }

  predicate BelowFrom(codes: seq<nat>, next: nat) { forall k :: 0 <= k < |codes| ==> codes[k] < next + k }

  lemma BelowCons(c: nat, codes: seq<nat>, next: nat)
    requires c < next && BelowFrom(codes, next + 1)
    ensures BelowFrom([c] + codes, next)
  {
    forall k | 0 <= k < |[c] + codes| ensures ([c] + codes)[k] < next + k {
      if k > 0 {
        assert ([c] + codes)[k] == codes[k - 1];
      }
    }
  }

  lemma ReadyNext(dict: Codes, next: nat, w: Text)
    requires Ready(dict, next) && w !in dict
    ensures Ready(dict[w := next], next + 1)
  {
    var dict' := dict[w := next];
    forall b: Byte ensures Single(b) in dict' && dict'[Single(b)] == b {
      assert Single(b) in dict && dict[Single(b)] == b;
    }
  }

  lemma EncodeFits(x: Text)
    ensures Fits(CompressCodes(x))
  {
    hide FirstCodes, Encode;
    FirstCodesReady();
    assert Single(0) in FirstCodes() && CStr([]) == [];
    EncodeBelow(FirstCodes(), 256, [], x);
    assert BelowFrom(CompressCodes(x), 256);
  }

  // ---------- what fits the variables of the code ----------

  /** The size of the decoder's key buffer: that of an int. */
  const KEY_SIZE: nat := 4

  function DecimalLength(n: nat): nat { if n < 10 then 1 else 1 + DecimalLength(n / 10) }

  /** The digits of a key, and the byte that ends it, have room in the buffer. */
  predicate KeyFits(n: nat) { DecimalLength(n) + 1 <= KEY_SIZE }

  lemma KeyFitsIff(n: nat)
    ensures KeyFits(n) <==> n < 1000
  {
    var a, b := n / 10, n / 10 / 10;
    assert n < 1000 <==> b < 10;
    assert n < 10 ==> DecimalLength(n) == 1;
    assert a < 10 <= n ==> DecimalLength(n) == 2;
    assert a >= 10 ==> DecimalLength(n) == 2 + DecimalLength(b);
  }

  /** The keys that the decoder writes for its k-th code: the code, and the entry it adds. */
  predicate KeysFit(codes: seq<nat>) { forall k :: 0 <= k < |codes| ==> KeyFits(codes[k]) && KeyFits(255 + k) }

  /** The decoder stays within its key buffer if and only if there are at most 745 codes. */
  lemma KeysFitIff(x: Text)
    ensures KeysFit(CompressCodes(x)) <==> |CompressCodes(x)| <= 745
  {
    hide CompressCodes, KeyFits;
    var codes := CompressCodes(x);
    EncodeFits(x);
    if |codes| <= 745 {
      forall k | 0 <= k < |codes| ensures KeyFits(codes[k]) && KeyFits(255 + k) {
        assert codes[k] < 256 + k;
        KeyFitsIff(codes[k]);
        KeyFitsIff(255 + k);
      }
      assert KeysFit(codes);
    } else {
      var k := 745;
      KeyFitsIff(255 + k);
      assert !KeyFits(255 + k) && codes[k] < 256 + k;
    }
  }

  lemma {:induction false} EncodeLength(dict: Codes, next: nat, s: Text, x: Text)
    ensures 1 <= |Encode(dict, next, s, x)| <= |x| + 1
    decreases |x|
  {
    hide CStr;
    if x != [] {
      var t := s + [x[0]];
      if CStr(t) in dict {
        EncodeLength(dict, next, t, x[1..]);
      } else {
        EncodeLength(dict[CStr(t) := next], next + 1, [x[0]], x[1..]);
      }
    }
  }

  /** There are no more codes than bytes, but for the one code of the empty text. */
  lemma CodesAtMost(x: Text)
    ensures |CompressCodes(x)| <= if x == [] then 1 else |x|
  {
    hide FirstCodes, CStr;
    if x == [] {
      EncodeLength(FirstCodes(), 256, [], x);
    } else {
      FirstCodesReady();
      SingleKey(x[0]);
      assert [] + [x[0]] == [x[0]];
      EncodeLength(FirstCodes(), 256, [x[0]], x[1..]);
    }
  }

  /** So no text of at most 745 bytes takes the decoder beyond its buffer. */
  lemma ShortTextFits(x: Text)
    requires |x| <= 745
    ensures KeysFit(CompressCodes(x))
  {
    hide CompressCodes, KeysFit;
    CodesAtMost(x);
    KeysFitIff(x);
  }

  /** Nor its bit buffer, or the encoder's: the bits that wait and those of a code fit an int, and do so for
      more codes by far. */
  lemma BitsFit(k: nat)
    requires k <= 745 || 256 + k <= Pow2(24)
    ensures 7 + Width(k) <= 31
  {
    WidthIsLeast(k);
    WidthStart();
    hide Width;
    assert Pow2(10) == 1024;
    Pow2Grows(10, 24);
    if Width(k) > 24 {
      Pow2Grows(24, Width(k) - 1);
    }
  }

  lemma {:induction false} Pow2Grows(a: nat, b: nat)
    requires a <= b
    ensures Pow2(a) <= Pow2(b)
  {
    if a < b {
      Pow2Grows(a, b - 1);
    }
  }

  // ---------- the decoder keeps up ----------

  /** The two dictionaries when the decoder is about to read a code that the encoder has not written yet:
      the previous phrase is `prev`, the phrase under way is `s`, and the decoder lacks exactly the
      entry `next - 1`, the previous phrase and the first byte of this one.  `hi` tells whether the
      decoder's entry 255 still is byte 255. */
  predicate InStep(dict: Codes, next: nat, table: Entries, prev: Text, s: Text, hi: bool) {
    && Ready(dict, next) && next > 256
    && prev != [] && NoNul(prev) && s != [] && NoNul(s) && s in dict
    && (forall w :: w in dict ==> NoNul(w))
    && prev + [s[0]] in dict && dict[prev + [s[0]]] == next - 1
    && (forall w :: w in dict && dict[w] == next - 1 ==> w == prev + [s[0]])
    && (forall c :: c in table ==> c < next - 1)
    && (forall w :: w in dict && dict[w] != next - 1 && (w != [255] || hi) ==> dict[w] in table && table[dict[w]] == w)
  }

  /** One code: the entry the decoder finds, or makes up, is the phrase. */
  lemma EntryIsPhrase(dict: Codes, next: nat, table: Entries, prev: Text, s: Text, hi: bool)
    requires InStep(dict, next, table, prev, s, hi) && (s != [255] || hi)
    ensures Entry(table, prev, dict[s]) == s
    ensures CStr(prev + [First(s)]) == prev + [s[0]]
  {
    CStrOfText(prev);
    CStrOfText(prev + [s[0]]);
    if dict[s] == next - 1 {
      assert s == prev + [s[0]];
      assert s[0] == prev[0];
    }
  }

  /** The dictionaries after a phrase is written and read. */
  lemma InStepNext(dict: Codes, next: nat, table: Entries, prev: Text, s: Text, hi: bool, z: Byte)
    requires InStep(dict, next, table, prev, s, hi) && z != 0 && s + [z] !in dict
    ensures InStep(dict[s + [z] := next], next + 1, table[next - 1 := prev + [s[0]]], s, [z], hi)
  {
    hide CStr;
    var dict' := dict[s + [z] := next];
    var table' := table[next - 1 := prev + [s[0]]];
    assert Single(z) in dict;
    forall b: Byte ensures Single(b) in dict' && dict'[Single(b)] == b {
      assert Single(b) in dict && dict[Single(b)] == b;
    }
    forall w | w in dict' && dict'[w] != next && (w != [255] || hi)
        ensures dict'[w] in table' && table'[dict'[w]] == w {
      assert w in dict && dict'[w] == dict[w];
    }
  }

  /** The decoder recovers the phrase under way and all that follows. */
  lemma {:induction false} DecodeFollows(dict: Codes, next: nat, table: Entries, prev: Text, s: Text, hi: bool, x: Text)
    requires InStep(dict, next, table, prev, s, hi) && NoNul(x) && (hi || 255 !in s + x)
    ensures Decode(table, next - 1, prev, Encode(dict, next, s, x)) == s + x
    decreases |x|
  {
    hide CStr, Entry, InStep;
    InStepFacts(dict, next, table, prev, s, hi);
    assert s != [255] || hi by { if s == [255] { assert (s + x)[0] == 255; } }
    EntryIsPhrase(dict, next, table, prev, s, hi);
    CStrOfText(s);
    if x == [] {
      assert [dict[s]][1..] == [] && s + [] == s;
    } else {
      var z, t := x[0], s + [x[0]];
      assert z != 0 && NoNul(x[1..]) && NoNul(t);
      CStrOfText(t);
      if t in dict {
        GrowInStep(dict, next, table, prev, s, hi, z);
        assert t + x[1..] == s + x;
        DecodeFollows(dict, next, table, prev, t, hi, x[1..]);
      } else {
        var dict' := dict[t := next];
        InStepNext(dict, next, table, prev, s, hi, z);
        assert [z] + x[1..] == x;
        assert hi || 255 !in [z] + x[1..] by { if !hi { assert forall b :: b in x ==> b in s + x; } }
        DecodeFollows(dict', next + 1, table[next - 1 := prev + [s[0]]], s, [z], hi, x[1..]);
        var rest := Encode(dict', next + 1, [z], x[1..]);
        assert ([dict[s]] + rest)[1..] == rest;
      }
    }
  }

  lemma InStepFacts(dict: Codes, next: nat, table: Entries, prev: Text, s: Text, hi: bool)
    requires InStep(dict, next, table, prev, s, hi)
    ensures s in dict && s != [] && NoNul(s) && NoNul(prev) && prev != [] && next > 256
  {
  }

  lemma GrowInStep(dict: Codes, next: nat, table: Entries, prev: Text, s: Text, hi: bool, z: Byte)
    requires InStep(dict, next, table, prev, s, hi) && z != 0 && s + [z] in dict
    ensures InStep(dict, next, table, prev, s + [z], hi)
  {
    assert (s + [z])[0] == s[0];
  }

  // ---------- the first code ----------

  /** The encoder's dictionary after the first code, and the decoder's table: entry 255 is replaced. */
  function SecondCodes(x: Text): Codes
    requires |x| >= 2
  {
    FirstCodes()[[x[0], x[1]] := 256]
  }

  function SecondEntries(x: Text): Entries
    requires x != []
  {
    FirstEntries()[255 := [x[0]]]
  }

  lemma FirstPhrase(x: Text)
    requires x != [] && NoNul(x)
    ensures CompressCodes(x) == Encode(FirstCodes(), 256, [x[0]], x[1..])
    ensures |x| == 1 ==> CompressCodes(x) == [x[0] as nat]
    ensures |x| > 1 ==> CompressCodes(x) == [x[0] as nat] + Encode(SecondCodes(x), 257, [x[1]], x[2..])
  {
    hide FirstCodes, Ready;
    FirstCodesReady();
    var s: Text := [x[0]];
    assert [] + [x[0]] == s;
    SingleKey(x[0]);
    ReadySingle(FirstCodes(), 256, x[0]);
    if |x| > 1 {
      assert x[1..][0] == x[1] && x[1..][1..] == x[2..];
      var t: Text := [x[0], x[1]];
      assert s + [x[1]] == t;
      CStrOfText(t);
      LongKey(t);
      assert s in FirstCodes()[t := 256] && FirstCodes()[t := 256][s] == x[0];
    }
  }

  lemma LongKey(t: Text)
    requires |t| >= 2
    ensures t !in FirstCodes()
  {
    hide FirstCodes;
    FirstCodesReady();
    assert forall b: Byte :: |Single(b)| <= 1;
  }

  lemma ReadySingle(dict: Codes, next: nat, b: Byte)
    requires Ready(dict, next)
    ensures Single(b) in dict && dict[Single(b)] == b
  {
  }

  lemma FirstEntry(x: Text, codes: seq<nat>)
    requires x != [] && NoNul(x)
    ensures DecompressCodes([x[0] as nat] + codes) == [x[0]] + Decode(SecondEntries(x), 256, [x[0]], codes)
  {
    SingleKey(x[0]);
    var all := [x[0] as nat] + codes;
    assert all[0] == x[0] && all[1..] == codes;
    assert Entry(FirstEntries(), [], x[0]) == [x[0]];
    assert [] + [First([x[0]])] == [x[0]];
    CStrOfText([x[0]]);
  }

  lemma SecondInStep(x: Text)
    requires |x| >= 2 && NoNul(x)
    ensures InStep(SecondCodes(x), 257, SecondEntries(x), [x[0]], [x[1]], x[0] == 255)
  {
    var dict, table := SecondCodes(x), SecondEntries(x);
    var t: Text := [x[0], x[1]];
    FirstCodesReady();
    LongKey(t);
    hide FirstCodes, CStr;
    assert [x[0]] + [x[1]] == t;
    forall b: Byte ensures Single(b) in dict && dict[Single(b)] == b {
      ReadySingle(FirstCodes(), 256, b);
    }
    assert Single(x[1]) in dict;
    forall w | w in dict ensures NoNul(w) {
      if w != t {
        var b: Byte :| w == Single(b);
      }
    }
    forall w | w in dict && dict[w] != 256 && (w != [255] || x[0] == 255)
      ensures dict[w] in table && table[dict[w]] == w
    {
      var b: Byte :| w == Single(b);
      SingleKey(b);
    }
    ReadyNext(FirstCodes(), 256, t);
  }

  // ---------- when the round trip holds ----------

  /** Strings that come back: no NUL byte, and byte 255 only if it is the first byte too. */
  predicate Safe(x: Text) { NoNul(x) && (x == [] || x[0] == 255 || 255 !in x) }

  lemma SafeReturns(x: Text)
    requires Safe(x)
    ensures DecompressCodes(CompressCodes(x)) == x
  {
    hide CStr, Encode, Decode, InStep, SecondCodes, SecondEntries;
    if x == [] {
      EmptyReturns();
    } else {
      FirstPhrase(x);
      if |x| == 1 {
        FirstEntry(x, []);
        DecodeNothing(SecondEntries(x), 256, [x[0]]);
        assert [x[0] as nat] + [] == [x[0] as nat];
      } else {
        var codes := Encode(SecondCodes(x), 257, [x[1]], x[2..]);
        FirstEntry(x, codes);
        SecondInStep(x);
        assert [x[1]] + x[2..] == x[1..];
        DecodeFollows(SecondCodes(x), 257, SecondEntries(x), [x[0]], [x[1]], x[0] == 255, x[2..]);
        assert [x[0]] + x[1..] == x;
      }
    }
  }

  lemma DecodeNothing(table: Entries, next: nat, s: Text)
    ensures Decode(table, next, s, []) == []
  {
  }

  /** The empty string is encoded as code 0, the entry of which is empty. */
  lemma EmptyReturns()
    ensures CompressCodes([]) == [0] && DecompressCodes([0]) == []
  {
    FirstCodesReady();
    ReadySingle(FirstCodes(), 256, 0);
    assert CStr([]) == [] && Single(0) == [];
    SingleKey(0);
    assert FirstEntries()[0] == CStr([0]);
    assert [0][1..] == [];
  }

  /** The decoder never writes a NUL byte. */
  lemma {:induction false} DecodeNoNul(table: Entries, next: nat, s: Text, codes: seq<nat>)
    requires forall c :: c in table ==> NoNul(table[c])
    ensures NoNul(Decode(table, next, s, codes))
    decreases |codes|
  {
    hide CStr;
    if codes != [] {
      var e := Entry(table, s, codes[0]);
      CStrOfText(CStr(s) + [First(s)]);
      CStrOfText(s + [First(e)]);
      DecodeNoNul(table[next := CStr(s + [First(e)])], next + 1, e, codes[1..]);
    }
  }

  /** When the phrase is byte 255 and the table has another byte for that code, the byte is lost. */
  lemma WrongByte(dict: Codes, next: nat, table: Entries, prev: Text, x: Text)
    requires Ready(dict, next) && next > 0 && NoNul(x)
    requires forall w :: w in dict && w != [] && w[0] == 255 ==> w == [255]
    requires 255 in table && table[255] != [] && table[255][0] != 255
    ensures Decode(table, next - 1, prev, Encode(dict, next, [255], x)) != [255] + x
  {
    hide CStr;
    ReadySingle(dict, next, 255);
    CStrOfText([255]);
    var codes := Encode(dict, next, [255], x);
    if x != [] {
      var t: Text := [255] + [x[0]];
      CStrOfText(t);
      assert t !in dict;
    }
    assert codes[0] == 255;
    assert Decode(table, next - 1, prev, codes)[0] == table[255][0];
  }

  /** The first byte 255, if it is not the first byte of the input, is lost. */
  lemma {:induction false} FirstHighByte(dict: Codes, next: nat, table: Entries, prev: Text, s: Text, x: Text)
    requires InStep(dict, next, table, prev, s, false) && NoNul(x) && 255 in s + x
    requires forall w :: w in dict && 255 in w ==> w == [255]
    requires 255 in s ==> s == [255]
    requires 255 in table && table[255] != [] && table[255][0] != 255
    ensures Decode(table, next - 1, prev, Encode(dict, next, s, x)) != s + x
    decreases |x|
  {
    hide CStr, Entry, InStep, Ready;
    InStepFacts(dict, next, table, prev, s, false);
    InStepReady(dict, next, table, prev, s, false);
    CStrOfText(s);
    if 255 in s {
      WrongByte(dict, next, table, prev, x);
    } else {
      EntryIsPhrase(dict, next, table, prev, s, false);
      var z, t := x[0], s + [x[0]];
      assert z != 0 && NoNul(x[1..]) && NoNul(t);
      CStrOfText(t);
      assert x == [z] + x[1..];
      if t in dict {
        GrowInStep(dict, next, table, prev, s, false, z);
        assert t + x[1..] == s + x;
        assert t[|s|] == z;
        FirstHighByte(dict, next, table, prev, t, x[1..]);
      } else {
        var dict', table' := dict[t := next], table[next - 1 := prev + [s[0]]];
        InStepNext(dict, next, table, prev, s, false, z);
        var rest := Encode(dict', next + 1, [z], x[1..]);
        assert ([dict[s]] + rest)[1..] == rest;
        if z == 255 {
          assert t[0] == s[0] != 255;
          InStepReady(dict', next + 1, table', s, [z], false);
          WrongByte(dict', next + 1, table', s, x[1..]);
        } else {
          assert 255 !in t;
          assert 255 in [z] + x[1..];
          FirstHighByte(dict', next + 1, table', s, [z], x[1..]);
        }
        Differ(s, Decode(table', next, s, rest), x);
      }
    }
  }

  lemma Differ(s: Text, a: Text, b: Text)
    requires a != b
    ensures s + a != s + b
  {
    assert (s + a)[|s|..] == a && (s + b)[|s|..] == b;
  }

  lemma InStepReady(dict: Codes, next: nat, table: Entries, prev: Text, s: Text, hi: bool)
    requires InStep(dict, next, table, prev, s, hi)
    ensures Ready(dict, next) && next > 256
  {
  }

  lemma UnsafeIsLost(x: Text)
    requires !Safe(x)
    ensures DecompressCodes(CompressCodes(x)) != x
  {
    hide CStr, Encode, Decode, InStep;
    if 0 in x {
      forall c | c in FirstEntries() ensures NoNul(FirstEntries()[c]) {
        SingleKey(c);
      }
      DecodeNoNul(FirstEntries(), 255, [], CompressCodes(x));
    } else {
      var i :| 0 <= i < |x| && x[i] == 255;
      assert i != 0;
      FirstPhrase(x);
      var codes := Encode(SecondCodes(x), 257, [x[1]], x[2..]);
      FirstEntry(x, codes);
      SecondInStep(x);
      assert [x[1]] + x[2..] == x[1..] && [x[0]] + x[1..] == x;
      SecondHigh(x);
      hide SecondCodes, FirstEntries;
      InStepReady(SecondCodes(x), 257, SecondEntries(x), [x[0]], [x[1]], false);
      if x[1] == 255 {
        WrongByte(SecondCodes(x), 257, SecondEntries(x), [x[0]], x[2..]);
      } else {
        FirstHighByte(SecondCodes(x), 257, SecondEntries(x), [x[0]], [x[1]], x[2..]);
      }
      Differ([x[0]], Decode(SecondEntries(x), 256, [x[0]], codes), x[1..]);
    }
  }

  lemma SecondHigh(x: Text)
    requires |x| >= 2 && NoNul(x) && x[0] != 255
    ensures forall w :: w in SecondCodes(x) && 255 in w && x[1] != 255 ==> w == [255]
    ensures forall w :: w in SecondCodes(x) && w != [] && w[0] == 255 ==> w == [255]
    ensures 255 in x ==> 255 in [x[1]] + x[2..]
  {
    hide FirstCodes;
    FirstCodesReady();
    assert x == [x[0]] + ([x[1]] + x[2..]);
    forall w | w in SecondCodes(x) && w != [] && w[0] == 255 ensures w == [255] {
      if w != [x[0], x[1]] {
        var b: Byte :| w == Single(b);
      }
    }
    forall w | w in SecondCodes(x) && 255 in w && x[1] != 255 ensures w == [255] {
      if w != [x[0], x[1]] {
        var b: Byte :| w == Single(b);
      }
    }
  }

  /** The round trip through codes holds exactly for the safe strings. */
  lemma RoundTripIff(x: Text)
    ensures DecompressCodes(CompressCodes(x)) == x <==> Safe(x)
  {
    hide CompressCodes, DecompressCodes;
    if Safe(x) { SafeReturns(x); } else { UnsafeIsLost(x); }
  }

  /** A text that is lost: the decoder's entry 255 is not what it was when the code 255 comes. */
  lemma HighByteIsLost()
    ensures DecompressCodes(CompressCodes([1, 255])) != [1, 255]
  {
    hide CompressCodes, DecompressCodes;
    var x: Text := [1, 255];
    assert x[1] == 255;
    RoundTripIff(x);
  }

  /** The round trip of the codec, through the packed bytes: decoding the encoding of a string gives it back
      exactly when it has no NUL byte, and no byte 255 unless that is its first byte. */
  lemma CodecRoundTrip(x: Text, packed: seq<Byte>)
    requires Packs(packed, CodeBits(CompressCodes(x), 0))
    ensures DecompressCodes(CodesOf(BytesBits(packed), 0)) == x <==> Safe(x)
  {
    hide CompressCodes, DecompressCodes, Packs, CodeBits, CodesOf, BytesBits;
    EncodeFits(x);
    UnpackPacked(CompressCodes(x), packed);
    RoundTripIff(x);
  }

  /** The two entry points one after the other: a string comes back if and only if it is safe. */
  method EncodeDecode(x: Text) returns (y: Text)
    ensures y == x <==> Safe(x)
  {
    hide CompressCodes, DecompressCodes, Packs, CodeBits, CodesOf, BytesBits, Safe;
    var packed := Compress(x);
    CodecRoundTrip(x, packed);
    y := Decompress(packed);
  }
}
