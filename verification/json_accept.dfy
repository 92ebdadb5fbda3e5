/** The parser takes the texts of the grammar for what they stand for, and takes no others. */
module JsonAccept {
  import opened Common
  import opened JsonText
  import opened JsonPlaces
  import opened JsonGrammar

  // ---------- characters ----------

  lemma HexDigitIff(c: Byte, d: nat)
    requires d < 16
    ensures DigitOf(c, d) <==> HexDigit(c) == d
  {
  }

  lemma Sixteens(a: nat, b: nat, c: nat, d: nat, u: nat)
    requires a < 16 && b < 16 && c < 16 && d < 16 && u < 0x10000
    ensures u == ((a * 16 + b) * 16 + c) * 16 + d <==>
            a == u / 4096 && b == u / 256 % 16 && c == u / 16 % 16 && d == u % 16
  {
    var x, y, z := u / 16, u / 256, u / 4096;
    assert y == x / 16 && z == y / 16;
    assert u == 16 * x + u % 16 && x == 16 * y + x % 16 && y == 16 * z + y % 16;
    var p, q := (a * 16 + b) * 16 + c, a * 16 + b;
    assert u == p * 16 + d ==> x == p && u % 16 == d;
    assert x == q * 16 + c ==> y == q && x % 16 == c;
    assert y == a * 16 + b ==> z == a && y % 16 == b;
  }

  /** What four hex digits are read as is what they spell. */
  lemma Hex4Iff(t: Bytes, i: nat, u: nat)
    requires u < 0x10000
    ensures Hex4(t, i) == u <==> i + 4 <= |t| && Spells(t[i..i + 4], u)
  {
    var a, b, c, d := HexDigit(Ch(t, i)), HexDigit(Ch(t, i + 1)), HexDigit(Ch(t, i + 2)), HexDigit(Ch(t, i + 3));
    if a >= 0 && b >= 0 && c >= 0 && d >= 0 {
      Sixteens(a, b, c, d, u);
    }
    if i + 4 <= |t| {
      var h := t[i..i + 4];
      assert h[0] == Ch(t, i) && h[1] == Ch(t, i + 1) && h[2] == Ch(t, i + 2) && h[3] == Ch(t, i + 3);
      HexDigitIff(h[0], u / 4096);
      HexDigitIff(h[1], u / 256 % 16);
      HexDigitIff(h[2], u / 16 % 16);
      HexDigitIff(h[3], u % 16);
      hide HexDigit, DigitOf;
    }
  }

  lemma HexRead(t: Bytes, i: nat, h: Bytes, u: nat)
    requires u < 0x10000 && Spells(h, u) && StartsWith(t, i, h)
    ensures |h| == 4 && i + 4 <= |t| && Hex4(t, i) == u
  {
    Hex4Iff(t, i, u);
  }

  lemma HexFound(t: Bytes, i: nat)
    requires Hex4(t, i) >= 0
    ensures i + 4 <= |t| && Spells(t[i..i + 4], Hex4(t, i)) && StartsWith(t, i, t[i..i + 4])
  {
    Hex4Iff(t, i, Hex4(t, i));
  }

  predicate CodeAt(t: Bytes, i: nat) { Ch(t, i) == BACKSLASH && Ch(t, i + 1) == 117 }

  lemma CodeStarts(t: Bytes, i: nat)
    ensures StartsWith(t, i, CODE) <==> CodeAt(t, i)
  {
    if CodeAt(t, i) {
      assert t[i..i + 2] == CODE;
    }
    if StartsWith(t, i, CODE) {
      assert t[i..i + 2][0] == t[i] && t[i..i + 2][1] == t[i + 1];
    }
  }

  /** The two halves of a code point beyond those of four digits. */
  lemma HalvesAre(u: nat, v: nat, w: nat)
    requires 0xD800 <= v <= 0xDBFF && 0xDC00 <= w <= 0xDFFF
    ensures u == 0x10000 + (v - 0xD800) * 1024 + (w - 0xDC00) <==>
            u >= 0x10000 && v == 0xD800 + (u - 0x10000) / 0x400 && w == 0xDC00 + (u - 0x10000) % 0x400
  {
  }

  /** What comes after a character may matter only to a first half alone. */
  predicate After(c: Char, t: Bytes, e: nat) { c.StrayHigh? ==> !CodeAt(t, e) }

  lemma CharRead(t: Bytes, i: nat, c: Char)
    requires ValidChar(c) && StartsWith(t, i, CharText(c)) && After(c, t, i + |CharText(c)|)
    ensures i < |t| && Ch(t, i) != QUOTE && Ch(t, i) != 0
    ensures Character(t, i) == Ok(CharBytes(c), i + |CharText(c)|)
  {
    hide Spells, Hex4, Utf8, Unicode;
    match c
    case Plain(b) => StartsFirst(t, i, [b]);
    case Escape(b) =>
      StartsConcat(t, i, [BACKSLASH], [b]);
      assert [BACKSLASH] + [b] == [BACKSLASH, b];
      StartsFirst(t, i, [BACKSLASH]);
      StartsFirst(t, i + 1, [b]);
    case _ => CodeRead(t, i, c);
  }

  lemma CodeRead(t: Bytes, i: nat, c: Char)
    requires ValidChar(c) && !c.Plain? && !c.Escape?
    requires StartsWith(t, i, CharText(c)) && After(c, t, i + |CharText(c)|)
    ensures i + 1 < |t| && Ch(t, i) == BACKSLASH && Ch(t, i + 1) == 117
    ensures Unicode(t, i) == Ok(CharBytes(c), i + |CharText(c)|)
  {
    hide Spells, Hex4, Utf8, StartsWith;
    CodeStarts(t, i);
    if c.Halves? || c.Mismatch? {
      Starts4(t, i, CODE, c.h, CODE, c.l);
      CodeStarts(t, i + 6);
      if c.Halves? {
        HexRead(t, i + 2, c.h, 0xD800 + (c.u - 0x10000) / 0x400);
        HexRead(t, i + 8, c.l, 0xDC00 + (c.u - 0x10000) % 0x400);
        HalvesAre(c.u, 0xD800 + (c.u - 0x10000) / 0x400, 0xDC00 + (c.u - 0x10000) % 0x400);
      } else {
        HexRead(t, i + 2, c.h, c.v);
        HexRead(t, i + 8, c.l, c.w);
      }
    } else {
      StartsConcat(t, i, CODE, c.h);
      HexRead(t, i + 2, c.h, if c.Code? then c.u else c.v);
    }
  }

  lemma CharFound(t: Bytes, i: nat) returns (c: Char)
    requires i < |t| && t[i] != QUOTE && t[i] != 0 && Character(t, i).Ok?
    ensures ValidChar(c) && StartsWith(t, i, CharText(c)) && After(c, t, i + |CharText(c)|)
    ensures Character(t, i) == Ok(CharBytes(c), i + |CharText(c)|)
  {
    hide Spells, Hex4, Utf8;
    if t[i] != BACKSLASH {
      c := Plain(t[i]);
    } else if Ch(t, i + 1) != 117 {
      c := Escape(t[i + 1]);
      assert t[i..i + 2] == CharText(c);
    } else {
      c := CodeFound(t, i);
    }
    CharRead(t, i, c);
  }

  lemma CodeFound(t: Bytes, i: nat) returns (c: Char)
    requires CodeAt(t, i) && i + 1 < |t| && Unicode(t, i).Ok?
    ensures ValidChar(c) && StartsWith(t, i, CharText(c)) && After(c, t, i + |CharText(c)|)
  {
    hide Spells, Hex4, Utf8, StartsWith;
    var u := Hex4(t, i + 2);
    HexFound(t, i + 2);
    CodeStarts(t, i);
    CodeStarts(t, i + 6);
    var h := t[i + 2..i + 6];
    StartsConcat(t, i, CODE, h);
    if 0xDC00 <= u <= 0xDFFF || u == 0 {
      c := Stray(u, h);
    } else if u < 0xD800 || u > 0xDBFF {
      c := Code(u, h);
    } else if !CodeAt(t, i + 6) {
      c := StrayHigh(u, h);
    } else {
      var v := Hex4(t, i + 8);
      HexFound(t, i + 8);
      var l := t[i + 8..i + 12];
      StartsConcat(t, i, CODE + h, CODE);
      StartsConcat(t, i, CODE + h + CODE, l);
      if v < 0xDC00 || v > 0xDFFF {
        c := Mismatch(u, h, v, l);
      } else {
        var w := 0x10000 + (u - 0xD800) * 1024 + (v - 0xDC00);
        HalvesAre(w, u, v);
        c := Halves(w, h, l);
      }
    }
  }

  // ---------- strings ----------

  predicate StringEnds(t: Bytes, i: nat) { Ch(t, i) == QUOTE || Ch(t, i) == 0 }

  /** The first of some characters, and the others. */
  lemma CharsStep(t: Bytes, i: nat, cs: seq<Char>)
    requires cs != [] && ValidChars(cs)
    requires StartsWith(t, i, CharsText(cs)) && StringEnds(t, i + |CharsText(cs)|)
    ensures ValidChar(cs[0]) && ValidChars(cs[1..]) && CharsBytes(cs) == CharBytes(cs[0]) + CharsBytes(cs[1..])
    ensures StartsWith(t, i, CharText(cs[0])) && After(cs[0], t, i + |CharText(cs[0])|)
    ensures StartsWith(t, i + |CharText(cs[0])|, CharsText(cs[1..]))
    ensures |CharsText(cs)| == |CharText(cs[0])| + |CharsText(cs[1..])|
  {
    hide *;
    CharsAre(cs);
    StartsConcat(t, i, CharText(cs[0]), CharsText(cs[1..]));
    if cs[0].StrayHigh? && |cs| > 1 {
      var e := i + |CharText(cs[0])|;
      assert cs[1..][0] == cs[1];
      CharsAre(cs[1..]);
      StartsConcat(t, e, CharText(cs[1]), CharsText(cs[1..][1..]));
      NoCode(t, e, cs[1]);
    }
    EndIsNoCode(t, i + |CharsText(cs)|);
    AfterIs(cs[0], t, i + |CharText(cs[0])|);
  }

  lemma CharsAre(cs: seq<Char>)
    requires cs != [] && ValidChars(cs)
    ensures ValidChar(cs[0]) && ValidChars(cs[1..]) && CharsBytes(cs) == CharBytes(cs[0]) + CharsBytes(cs[1..])
    ensures CharsText(cs) == CharText(cs[0]) + CharsText(cs[1..]) && CharsText([]) == []
    ensures cs[0].StrayHigh? && |cs| > 1 ==> cs[1].Plain? || cs[1].Escape?
  {
    hide ValidChar, CharText, CharBytes;
  }

  lemma EndIsNoCode(t: Bytes, i: nat)
    ensures StringEnds(t, i) ==> !CodeAt(t, i)
  {
  }

  lemma AfterIs(c: Char, t: Bytes, e: nat)
    ensures !c.StrayHigh? || !CodeAt(t, e) ==> After(c, t, e)
  {
  }

  lemma NoCode(t: Bytes, i: nat, c: Char)
    requires ValidChar(c) && (c.Plain? || c.Escape?) && StartsWith(t, i, CharText(c))
    ensures !CodeAt(t, i)
  {
    StartsFirst(t, i, CharText(c));
    if c.Escape? {
      assert [BACKSLASH] + [c.c] == [BACKSLASH, c.c];
      StartsConcat(t, i, [BACKSLASH], [c.c]);
      StartsFirst(t, i + 1, [c.c]);
    }
  }

  lemma {:induction false} CharsRead(t: Bytes, i: nat, cs: seq<Char>)
    requires ValidChars(cs) && StartsWith(t, i, CharsText(cs)) && StringEnds(t, i + |CharsText(cs)|)
    ensures i + |CharsText(cs)| <= |t| && Characters(t, i) == Ok(CharsBytes(cs), i + |CharsText(cs)|)
    decreases |cs|
  {
    hide *;
    StartsWithin(t, i, CharsText(cs));
    if cs == [] {
      CharsNone(t, i);
    } else {
      CharsStep(t, i, cs);
      CharRead(t, i, cs[0]);
      CharsRead(t, i + |CharText(cs[0])|, cs[1..]);
      CharsNext(t, i, CharBytes(cs[0]), i + |CharText(cs[0])|);
    }
  }

  lemma CharsNone(t: Bytes, i: nat)
    ensures CharsText([]) == [] && ValidChars([]) && CharsBytes([]) == []
    ensures i <= |t| && StringEnds(t, i) ==> Characters(t, i) == Ok([], i)
  {
  }

  lemma CharsNext(t: Bytes, i: nat, c: Bytes, j: nat)
    requires i < |t| && Ch(t, i) != QUOTE && Ch(t, i) != 0 && Character(t, i) == Ok(c, j)
    ensures Characters(t, i) == Prepend(c, Characters(t, j))
  {
    hide Character;
  }

  lemma {:induction false} CharsFound(t: Bytes, i: nat) returns (cs: seq<Char>)
    requires i <= |t| && Characters(t, i).Ok?
    ensures ValidChars(cs) && StartsWith(t, i, CharsText(cs)) && StringEnds(t, i + |CharsText(cs)|)
    ensures cs != [] ==> StartsWith(t, i, CharText(cs[0]))
    decreases |t| - i
  {
    hide *;
    if StringEnds(t, i) {
      cs := [];
      CharsNone(t, i);
      StartsNothing(t, i);
    } else {
      FirstIsOk(t, i);
      var c := CharFound(t, i);
      var j := i + |CharText(c)|;
      CharsNext(t, i, CharBytes(c), j);
      var rest := CharsFound(t, j);
      cs := [c] + rest;
      CharsCons(t, i, c, rest);
    }
  }

  lemma StartsNothing(t: Bytes, i: nat)
    ensures i <= |t| ==> StartsWith(t, i, [])
  {
  }

  lemma FirstIsOk(t: Bytes, i: nat)
    requires i <= |t| && Characters(t, i).Ok? && !StringEnds(t, i)
    ensures i < |t| && t[i] != QUOTE && t[i] != 0 && Ch(t, i) == t[i] && Character(t, i).Ok?
  {
    hide Character;
  }

  lemma CharsCons(t: Bytes, i: nat, c: Char, rest: seq<Char>)
    requires ValidChar(c) && StartsWith(t, i, CharText(c)) && After(c, t, i + |CharText(c)|)
    requires ValidChars(rest) && StartsWith(t, i + |CharText(c)|, CharsText(rest))
    requires rest != [] ==> StartsWith(t, i + |CharText(c)|, CharText(rest[0]))
    ensures ValidChars([c] + rest) && StartsWith(t, i, CharsText([c] + rest))
    ensures |CharsText([c] + rest)| == |CharText(c)| + |CharsText(rest)|
  {
    hide ValidChar, StartsWith;
    StartsConcat(t, i, CharText(c), CharsText(rest));
    FirstOfConcat([c], rest);
    assert [c][1..] + rest == rest;
    if c.StrayHigh? && rest != [] {
      var j := i + |CharText(c)|;
      if !(rest[0].Plain? || rest[0].Escape?) {
        BeginsWithCode(t, j, rest[0]);
      }
    }
  }

  lemma BeginsWithCode(t: Bytes, i: nat, c: Char)
    requires !c.Plain? && !c.Escape? && StartsWith(t, i, CharText(c))
    ensures CodeAt(t, i)
  {
    hide StartsWith;
    CodeStarts(t, i);
    if c.Halves? || c.Mismatch? {
      Starts4(t, i, CODE, c.h, CODE, c.l);
    } else {
      StartsConcat(t, i, CODE, c.h);
    }
  }

  lemma QuotedRead(t: Bytes, i: nat, cs: seq<Char>)
    requires ValidChars(cs) && StartsWith(t, i, QuotedText(cs))
    ensures i < |t| && Ch(t, i) == QUOTE && ParseString(t, i) == Ok(CharsBytes(cs), i + |QuotedText(cs)|)
  {
    hide StartsWith, ValidChars, CharsText, CharsBytes, Characters;
    Starts3(t, i, [QUOTE], CharsText(cs), [QUOTE]);
    StartsFirst(t, i, [QUOTE]);
    StartsFirst(t, i + 1 + |CharsText(cs)|, [QUOTE]);
    CharsRead(t, i + 1, cs);
  }

  lemma OpenRead(t: Bytes, i: nat, cs: seq<Char>)
    requires ValidChars(cs) && StartsWith(t, i, [QUOTE] + CharsText(cs)) && Ch(t, i + 1 + |CharsText(cs)|) == 0
    ensures i < |t| && Ch(t, i) == QUOTE && ParseString(t, i) == Ok(CharsBytes(cs), i + 1 + |CharsText(cs)|)
  {
    hide StartsWith, ValidChars, CharsText, CharsBytes, Characters;
    StartsConcat(t, i, [QUOTE], CharsText(cs));
    StartsFirst(t, i, [QUOTE]);
    CharsRead(t, i + 1, cs);
  }

  /** A string that is read: with its closing quote, or up to the end of the text. */
  lemma StringFound(t: Bytes, i: nat) returns (cs: seq<Char>)
    requires i <= |t| && ParseString(t, i).Ok?
    ensures ValidChars(cs) && ParseString(t, i).value == CharsBytes(cs)
    ensures var e := ParseString(t, i).end;
            (StartsWith(t, i, QuotedText(cs)) && e == i + |QuotedText(cs)|)
            || (StartsWith(t, i, [QUOTE] + CharsText(cs)) && e == i + 1 + |CharsText(cs)| && Ch(t, e) == 0)
  {
    hide StartsWith, ValidChars, CharsText, CharsBytes, Characters;
    cs := CharsFound(t, i + 1);
    CharsRead(t, i + 1, cs);
    StartsOne(t, i, QUOTE);
    StartsOne(t, i + 1 + |CharsText(cs)|, QUOTE);
    StartsConcat(t, i, [QUOTE], CharsText(cs));
    StartsConcat(t, i, [QUOTE] + CharsText(cs), [QUOTE]);
  }

  // ---------- numbers ----------

  /** A number ends where nothing follows that could belong to it. */
  predicate NumberEnds(t: Bytes, i: nat)
  {
    var c := Ch(t, i);
    !Digit(c) && c != 46 && c != 101 && c != 69
  }

  /** An exponent without digits must not have a sign behind it either. */
  predicate Finished(n: Numeral, t: Bytes, e: nat) {
    && NumberEnds(t, e)
    && (n.power.Power? && n.power.sign == [] && n.power.digits == [] ==> Ch(t, e) != 43 && Ch(t, e) != 45)
  }

  function ValueFrom(n: real, s: Bytes): real
    decreases |s|
  {
    if s == [] then n else ValueFrom(n * 10.0 + (s[0] as int - 48) as real, s[1..])
  }

  lemma {:induction false} DigitsRead(t: Bytes, i: nat, n: real, s: Bytes)
    requires StartsWith(t, i, s) && AllDigits(s) && !Digit(Ch(t, i + |s|))
    ensures Digits(t, i, n) == (ValueFrom(n, s), i + |s|)
    decreases |s|
  {
    if s != [] {
      StartsFirst(t, i, s);
      StartsConcat(t, i, s[..1], s[1..]);
      assert s == s[..1] + s[1..];
      DigitsRead(t, i + 1, n * 10.0 + (s[0] - 48) as real, s[1..]);
    }
  }

  function IntFrom(n: nat, s: Bytes): nat
    requires AllDigits(s)
    decreases |s|
  {
    if s == [] then n else IntFrom(n * 10 + (s[0] - 48), s[1..])
  }

  lemma {:induction false} IntDigitsRead(t: Bytes, i: nat, n: nat, s: Bytes)
    requires StartsWith(t, i, s) && AllDigits(s) && !Digit(Ch(t, i + |s|))
    ensures IntDigits(t, i, n) == (IntFrom(n, s), i + |s|)
    decreases |s|
  {
    if s != [] {
      StartsFirst(t, i, s);
      StartsConcat(t, i, s[..1], s[1..]);
      assert s == s[..1] + s[1..];
      IntDigitsRead(t, i + 1, n * 10 + (s[0] - 48), s[1..]);
    }
  }

  lemma {:induction false} IntFromMore(n: nat, s: Bytes, c: Byte)
    requires AllDigits(s) && Digit(c)
    ensures AllDigits(s + [c]) && IntFrom(n, s + [c]) == IntFrom(n, s) * 10 + (c - 48)
    decreases |s|
  {
    if s == [] {
      assert [] + [c] == [c] && [c][1..] == [];
    } else {
      assert (s + [c])[1..] == s[1..] + [c];
      IntFromMore(n * 10 + (s[0] - 48), s[1..], c);
    }
  }

  lemma {:induction false} IntFromIs(s: Bytes)
    requires AllDigits(s)
    ensures IntFrom(0, s) == Whole(s)
  {
    if s != [] {
      var k := |s| - 1;
      IntFromIs(s[..k]);
      IntFromMore(0, s[..k], s[k]);
      assert s == s[..k] + [s[k]];
    }
  }

  lemma {:induction false} ValueFromInt(n: nat, s: Bytes)
    requires AllDigits(s)
    ensures ValueFrom(n as real, s) == IntFrom(n, s) as real
    decreases |s|
  {
    if s != [] {
      assert n as real * 10.0 + (s[0] as int - 48) as real == (n * 10 + (s[0] - 48)) as real;
      ValueFromInt(n * 10 + (s[0] - 48), s[1..]);
    }
  }

  lemma Pow10Next(e: int)
    ensures Pow10(e + 1) == 10.0 * Pow10(e)
  {
  }

  lemma {:induction false} Pow10Adds(a: int, b: int)
    ensures Pow10(a + b) == Pow10(a) * Pow10(b)
    decreases if b < 0 then -b else b
  {
    if b > 0 {
      Pow10Adds(a, b - 1);
      Pow10Next(a + b - 1);
      Pow10Next(b - 1);
      TenTimes(Pow10(a), Pow10(b - 1));
    } else if b < 0 {
      Pow10Adds(a, b + 1);
      Pow10Next(a + b);
      Pow10Next(b);
      TenTimes(Pow10(a), Pow10(b));
    }
  }

  lemma TenTimes(x: real, y: real)
    ensures x * (10.0 * y) == 10.0 * (x * y)
  {
  }

  /** Digits behind the point, taken for a whole number and scaled. */
  lemma {:induction false} PartIs(x: real, s: Bytes)
    requires AllDigits(s)
    ensures ValueFrom(x, s) * Pow10(-|s|) == x + Part(s)
    decreases |s|
  {
    if s != [] {
      var d := (s[0] - 48) as real;
      PartIs(x * 10.0 + d, s[1..]);
      Pow10Next(-|s|);
      TenTimes(ValueFrom(x, s), Pow10(-|s|));
    }
  }

  /** The number that the parser computes from sign, digits, their scale and the exponent. */
  lemma ScaledIs(n: Numeral, sign: real)
    requires ValidNumeral(n) && sign == (if n.minus then -1.0 else 1.0)
    ensures Scaled(sign, ValueFrom(ValueFrom(0.0, n.whole), n.part), -|n.part| + PowerOf(n.power)) == NumeralValue(n)
  {
    hide *;
    DigitsOf(n);
    WholeIs(n.whole);
    ScaledParts(sign, Whole(n.whole) as real, n.part, PowerOf(n.power));
    NumeralIs(n, sign);
  }

  lemma DigitsOf(n: Numeral)
    requires ValidNumeral(n)
    ensures AllDigits(n.whole) && AllDigits(n.part) && ValidPower(n.power)
  {
  }

  lemma WholeIs(s: Bytes)
    requires AllDigits(s)
    ensures ValueFrom(0.0, s) == Whole(s) as real
  {
    ValueFromInt(0, s);
    IntFromIs(s);
  }

  lemma NumeralIs(n: Numeral, sign: real)
    requires ValidNumeral(n) && sign == (if n.minus then -1.0 else 1.0)
    ensures NumeralValue(n) == sign * ((Whole(n.whole) as real + Part(n.part)) * Pow10(PowerOf(n.power)))
  {
    hide Whole, Part, Pow10, PowerOf;
  }

  lemma ScaledParts(sign: real, x: real, part: Bytes, e: int)
    requires AllDigits(part)
    ensures Scaled(sign, ValueFrom(x, part), -|part| + e) == sign * ((x + Part(part)) * Pow10(e))
  {
    hide ValueFrom, Part, Pow10;
    PartIs(x, part);
    Pow10Adds(-|part|, e);
    Regroup(sign, ValueFrom(x, part), Pow10(-|part|), Pow10(e));
  }

  lemma Regroup(a: real, b: real, c: real, d: real)
    ensures a * b * (c * d) == a * ((b * c) * d)
  {
  }

  /** Where the parts of a number begin. */
  function AfterMinus(n: Numeral, i: nat): nat { if n.minus then i + 1 else i }

  function AfterZero(n: Numeral, i: nat): nat { AfterMinus(n, i) + if n.zero then 1 else 0 }

  function AfterWhole(n: Numeral, i: nat): nat { AfterZero(n, i) + |n.whole| }

  function AfterPart(n: Numeral, i: nat): nat { AfterWhole(n, i) + |PartText(n.part)| }

  ghost predicate Parts(n: Numeral, t: Bytes, i: nat) {
    && ValidNumeral(n) && i <= |t|
    && (n.minus ==> Ch(t, i) == 45) && (n.zero ==> Ch(t, AfterMinus(n, i)) == 48)
    && StartsWith(t, AfterZero(n, i), n.whole) && StartsWith(t, AfterWhole(n, i), PartText(n.part))
    && StartsWith(t, AfterPart(n, i), PowerText(n.power))
  }

  lemma PartsIff(n: Numeral, t: Bytes, i: nat)
    requires ValidNumeral(n) && i <= |t|
    ensures StartsWith(t, i, NumeralText(n)) <==> Parts(n, t, i)
    ensures i + |NumeralText(n)| == AfterPart(n, i) + |PowerText(n.power)|
  {
    hide StartsWith, PartText, PowerText, ValidNumeral;
    var a: Bytes, b: Bytes := if n.minus then [45] else [], if n.zero then [48] else [];
    StartsOne(t, i, 45);
    StartsOne(t, AfterMinus(n, i), 48);
    StartsNothing(t, i);
    StartsConcat(t, i, a + b + n.whole + PartText(n.part), PowerText(n.power));
    StartsConcat(t, i, a + b + n.whole, PartText(n.part));
    StartsConcat(t, i, a + b, n.whole);
    StartsConcat(t, i, a, b);
    if n.minus && Ch(t, i) == 45 {
      StartsNothing(t, i + 1);
    }
  }

  /** The first byte of each part tells it from the others. */
  lemma PartsBegin(n: Numeral, t: Bytes, i: nat)
    requires Parts(n, t, i) && NumberEnds(t, AfterPart(n, i) + |PowerText(n.power)|)
    ensures n.minus <==> Ch(t, i) == 45
    ensures n.zero <==> Ch(t, AfterMinus(n, i)) == 48
    ensures n.whole != [] <==> 49 <= Ch(t, AfterZero(n, i)) <= 57
    ensures !Digit(Ch(t, AfterWhole(n, i))) && (n.part != [] <==> Ch(t, AfterWhole(n, i)) == 46)
    ensures n.part != [] ==> Digit(Ch(t, AfterWhole(n, i) + 1))
    ensures !Digit(Ch(t, AfterPart(n, i)))
    ensures n.power.Power? <==> Ch(t, AfterPart(n, i)) == 101 || Ch(t, AfterPart(n, i)) == 69
  {
    hide StartsWith;
    if n.power.Power? {
      StartsFirst(t, AfterPart(n, i), PowerText(n.power));
    }
    if n.part != [] {
      StartsFirst(t, AfterWhole(n, i), PartText(n.part));
      StartsConcat(t, AfterWhole(n, i), [46], n.part);
      StartsFirst(t, AfterWhole(n, i) + 1, n.part);
    }
    if n.whole != [] {
      StartsFirst(t, AfterZero(n, i), n.whole);
    }
  }

  lemma PowerRead(t: Bytes, i: nat, p: Exponent)
    requires i <= |t| && ValidPower(p) && StartsWith(t, i, PowerText(p)) && !Digit(Ch(t, i + |PowerText(p)|))
    requires p.NoExponent? ==> Ch(t, i) != 101 && Ch(t, i) != 69
    requires p.Power? && p.sign == [] && p.digits == [] ==> Ch(t, i + 1) != 43 && Ch(t, i + 1) != 45
    ensures JsonText.Exponent(t, i) == (PowerOf(p), i + |PowerText(p)|)
  {
    hide StartsWith;
    if p.Power? {
      Starts3(t, i, [p.letter], p.sign, p.digits);
      StartsFirst(t, i, [p.letter]);
      if p.sign != [] {
        StartsFirst(t, i + 1, p.sign);
      } else if p.digits != [] {
        StartsFirst(t, i + 1, p.digits);
      }
      IntDigitsRead(t, i + 1 + |p.sign|, 0, p.digits);
      IntFromIs(p.digits);
    }
  }

  /** A number is read as the value its digits have in their places. */
  lemma NumeralRead(t: Bytes, i: nat, n: Numeral)
    requires ValidNumeral(n) && StartsWith(t, i, NumeralText(n)) && Finished(n, t, i + |NumeralText(n)|)
    ensures i < |t| && (Ch(t, i) == 45 || Digit(Ch(t, i)))
    ensures ParseNumber(t, i) == Ok(Number(NumeralValue(n)), i + |NumeralText(n)|)
  {
    hide *;
    StartsWithin(t, i, NumeralText(n));
    PartsIff(n, t, i);
    NumeralParts(n, t, i);
    ScaledIs(n, if n.minus then -1.0 else 1.0);
  }

  lemma NumeralParts(n: Numeral, t: Bytes, i: nat)
    requires Parts(n, t, i) && Finished(n, t, AfterPart(n, i) + |PowerText(n.power)|)
    ensures i < |t| && (Ch(t, i) == 45 || Digit(Ch(t, i)))
    ensures var x := ValueFrom(ValueFrom(0.0, n.whole), n.part);
            var sign := if n.minus then -1.0 else 1.0;
            ParseNumber(t, i) ==
            Ok(Number(Scaled(sign, x, -|n.part| + PowerOf(n.power))), AfterPart(n, i) + |PowerText(n.power)|)
  {
    hide StartsWith, Digits, Scaled, JsonText.Exponent, ValidPower, PowerText, PowerOf;
    PartsBegin(n, t, i);
    DigitsRead(t, AfterZero(n, i), 0.0, n.whole);
    if n.part != [] {
      StartsConcat(t, AfterWhole(n, i), [46], n.part);
      DigitsRead(t, AfterWhole(n, i) + 1, ValueFrom(0.0, n.whole), n.part);
    }
    StartsWithin(t, AfterPart(n, i), PowerText(n.power));
    EndOfPower(n, t, i);
    PowerRead(t, AfterPart(n, i), n.power);
  }

  lemma EndOfPower(n: Numeral, t: Bytes, i: nat)
    requires ValidNumeral(n) && Finished(n, t, AfterPart(n, i) + |PowerText(n.power)|)
    ensures !Digit(Ch(t, AfterPart(n, i) + |PowerText(n.power)|)) && ValidPower(n.power)
    ensures n.power.Power? && n.power.sign == [] && n.power.digits == [] ==>
              Ch(t, AfterPart(n, i) + 1) != 43 && Ch(t, AfterPart(n, i) + 1) != 45
  {
  }

  lemma {:induction false} DigitsFound(t: Bytes, i: nat, n: real)
    requires i <= |t|
    ensures var j := Digits(t, i, n).1;
            && AllDigits(t[i..j]) && StartsWith(t, i, t[i..j]) && !Digit(Ch(t, j))
            && (Digit(Ch(t, i)) ==> i < j && t[i..j][0] == Ch(t, i))
    decreases |t| - i
  {
    if Digit(Ch(t, i)) {
      var n' := n * 10.0 + (Ch(t, i) - 48) as real;
      DigitsFound(t, i + 1, n');
      assert t[i..Digits(t, i, n).1] == [t[i]] + t[i + 1..Digits(t, i + 1, n').1];
    }
  }

  lemma {:induction false} IntDigitsFound(t: Bytes, i: nat, n: nat)
    requires i <= |t|
    ensures var j := IntDigits(t, i, n).1;
            AllDigits(t[i..j]) && StartsWith(t, i, t[i..j]) && !Digit(Ch(t, j))
    decreases |t| - i
  {
    if Digit(Ch(t, i)) {
      var n' := n * 10 + (Ch(t, i) - 48);
      IntDigitsFound(t, i + 1, n');
      assert t[i..IntDigits(t, i, n).1] == [t[i]] + t[i + 1..IntDigits(t, i + 1, n').1];
    }
  }

  lemma PowerFound(t: Bytes, i: nat) returns (p: Exponent)
    requires i <= |t|
    ensures ValidPower(p) && StartsWith(t, i, PowerText(p))
            && JsonText.Exponent(t, i) == (PowerOf(p), i + |PowerText(p)|)
  {
    hide *;
    StartsNothing(t, i);
    LetterWithin(t, i);
    if Ch(t, i) == 101 || Ch(t, i) == 69 {
      var c := Ch(t, i + 1);
      var sign: Bytes := if c == 43 || c == 45 then [c] else [];
      var j := i + 1 + |sign|;
      IntDigitsFound(t, j, 0);
      var digits := t[j..IntDigits(t, j, 0).1];
      p := Power(Ch(t, i), sign, digits);
      PowerPut(t, i, p);
      IntDigitsRead(t, j, 0, digits);
      IntFromIs(digits);
      PowerStep(t, i, p);
    } else {
      p := NoExponent;
      NoPower(t, i);
    }
  }

  lemma LetterWithin(t: Bytes, i: nat)
    ensures Ch(t, i) == 101 || Ch(t, i) == 69 ==> i < |t| && t[i] == Ch(t, i)
    ensures Ch(t, i + 1) == 43 || Ch(t, i + 1) == 45 ==> i + 1 < |t|
  {
  }

  lemma NoPower(t: Bytes, i: nat)
    requires i <= |t| && Ch(t, i) != 101 && Ch(t, i) != 69
    ensures ValidPower(NoExponent) && PowerText(NoExponent) == [] && PowerOf(NoExponent) == 0
    ensures JsonText.Exponent(t, i) == (0, i)
  {
  }

  lemma PowerPut(t: Bytes, i: nat, p: Exponent)
    requires p.Power? && i < |t| && t[i] == p.letter && StartsWith(t, i + 1 + |p.sign|, p.digits)
    requires p.sign == [] || (p.sign == [Ch(t, i + 1)] && i + 1 < |t|)
    ensures StartsWith(t, i, PowerText(p))
  {
    hide StartsWith;
    StartsOne(t, i, p.letter);
    StartsOne(t, i + 1, Ch(t, i + 1));
    StartsNothing(t, i + 1);
    StartsConcat(t, i, [p.letter], p.sign);
    StartsConcat(t, i, [p.letter] + p.sign, p.digits);
  }

  lemma PowerStep(t: Bytes, i: nat, p: Exponent)
    requires p.Power? && i < |t| && (p.letter == 101 || p.letter == 69) && p.letter == Ch(t, i) && AllDigits(p.digits)
    requires p.sign == if Ch(t, i + 1) == 43 || Ch(t, i + 1) == 45 then [Ch(t, i + 1)] else []
    requires var j := i + 1 + |p.sign|; j <= |t| && IntDigits(t, j, 0) == (Whole(p.digits), j + |p.digits|)
    ensures ValidPower(p) && JsonText.Exponent(t, i) == (PowerOf(p), i + |PowerText(p)|)
  {
    hide IntDigits, Whole, AllDigits;
  }

  lemma WholeFound(t: Bytes, i: nat) returns (s: Bytes)
    requires i <= |t|
    ensures AllDigits(s) && (s != [] ==> s[0] != 48) && StartsWith(t, i, s)
    ensures s != [] <==> 49 <= Ch(t, i) <= 57
    ensures (if 49 <= Ch(t, i) <= 57 then Digits(t, i, 0.0) else (0.0, i)) == (ValueFrom(0.0, s), i + |s|)
  {
    hide StartsWith, Digits;
    StartsNothing(t, i);
    s := [];
    if 49 <= Ch(t, i) <= 57 {
      DigitsFound(t, i, 0.0);
      s := t[i..Digits(t, i, 0.0).1];
      DigitsRead(t, i, 0.0, s);
    }
  }

  lemma PartFound(t: Bytes, i: nat, x: real) returns (s: Bytes)
    requires i <= |t|
    ensures AllDigits(s) && StartsWith(t, i, PartText(s)) && i + |PartText(s)| <= |t|
    ensures s != [] <==> Ch(t, i) == 46 && Digit(Ch(t, i + 1))
    ensures if s == [] then ValueFrom(x, s) == x else Digits(t, i + 1, x) == (ValueFrom(x, s), i + 1 + |s|)
  {
    hide StartsWith, Digits;
    StartsNothing(t, i);
    s := [];
    if Ch(t, i) == 46 && Digit(Ch(t, i + 1)) {
      DigitsFound(t, i + 1, x);
      s := t[i + 1..Digits(t, i + 1, x).1];
      DigitsRead(t, i + 1, x, s);
      StartsOne(t, i, 46);
      StartsConcat(t, i, [46], s);
    }
  }

  lemma NumeralFound(t: Bytes, i: nat) returns (n: Numeral)
    requires i < |t| && (Ch(t, i) == 45 || Digit(Ch(t, i)))
    ensures ValidNumeral(n) && StartsWith(t, i, NumeralText(n))
    ensures ParseNumber(t, i) == Ok(Number(NumeralValue(n)), i + |NumeralText(n)|)
  {
    hide *;
    var i1 := if Ch(t, i) == 45 then i + 1 else i;
    var i2 := if Ch(t, i1) == 48 then i1 + 1 else i1;
    MinusWithin(t, i1);
    var whole := WholeFound(t, i2);
    StartsWithin(t, i2, whole);
    var i3 := i2 + |whole|;
    var part := PartFound(t, i3, ValueFrom(0.0, whole));
    var power := PowerFound(t, i3 + |PartText(part)|);
    n := Numeral(Ch(t, i) == 45, Ch(t, i1) == 48, whole, part, power);
    PlacesAre(n, i);
    PartsFound(t, i, n);
    PartsIff(n, t, i);
    ScaledIs(n, if n.minus then -1.0 else 1.0);
  }

  lemma PlacesAre(n: Numeral, i: nat)
    ensures AfterMinus(n, i) == (if n.minus then i + 1 else i)
    ensures AfterZero(n, i) == AfterMinus(n, i) + if n.zero then 1 else 0
    ensures AfterWhole(n, i) == AfterZero(n, i) + |n.whole|
    ensures AfterPart(n, i) == AfterWhole(n, i) + |PartText(n.part)|
    ensures |PartText(n.part)| == if n.part == [] then 0 else 1 + |n.part|
  {
  }

  lemma MinusWithin(t: Bytes, i: nat)
    ensures Ch(t, i) == 48 ==> i < |t|
  {
  }

  lemma PartsFound(t: Bytes, i: nat, n: Numeral)
    requires i < |t| && (Ch(t, i) == 45 || Digit(Ch(t, i)))
    requires n.minus == (Ch(t, i) == 45) && n.zero == (Ch(t, AfterMinus(n, i)) == 48)
    requires AllDigits(n.whole) && (n.whole != [] ==> n.whole[0] != 48) && AllDigits(n.part) && ValidPower(n.power)
    requires AfterPart(n, i) <= |t| && StartsWith(t, AfterZero(n, i), n.whole)
    requires StartsWith(t, AfterWhole(n, i), PartText(n.part)) && StartsWith(t, AfterPart(n, i), PowerText(n.power))
    requires n.whole != [] <==> 49 <= Ch(t, AfterZero(n, i)) <= 57
    requires (if n.whole != [] then Digits(t, AfterZero(n, i), 0.0) else (0.0, AfterZero(n, i)))
             == (ValueFrom(0.0, n.whole), AfterWhole(n, i))
    requires n.part != [] <==> Ch(t, AfterWhole(n, i)) == 46 && Digit(Ch(t, AfterWhole(n, i) + 1))
    requires var x := ValueFrom(0.0, n.whole);
             if n.part == [] then ValueFrom(x, n.part) == x
             else Digits(t, AfterWhole(n, i) + 1, x) == (ValueFrom(x, n.part), AfterPart(n, i))
    requires JsonText.Exponent(t, AfterPart(n, i)) == (PowerOf(n.power), AfterPart(n, i) + |PowerText(n.power)|)
    ensures ValidNumeral(n) && Parts(n, t, i)
    ensures var x := ValueFrom(ValueFrom(0.0, n.whole), n.part);
            var sign := if n.minus then -1.0 else 1.0;
            ParseNumber(t, i) ==
            Ok(Number(Scaled(sign, x, -|n.part| + PowerOf(n.power))), AfterPart(n, i) + |PowerText(n.power)|)
  {
    hide StartsWith, Digits, Scaled, JsonText.Exponent, ValidPower, PowerText, PowerOf, ValueFrom, AllDigits;
  }
}
