/** The JSON texts of RFC 8259, and what cJSON.cc takes beyond them, as syntax trees: how each is written, and
    what it stands for. */
module JsonGrammar {
  import opened Common
  import opened JsonText
  import opened JsonPlaces

  // ---------- characters of a string ----------

  const SMALL: string := "0123456789abcdef"
  const CAPITAL: string := "0123456789ABCDEF"

  /** A hex digit, small or capital. */
  predicate DigitOf(c: Byte, d: nat)
    requires d < 16
  {
    c == SMALL[d] as int || c == CAPITAL[d] as int
  }

  /** Four hex digits that spell a number. */
  predicate Spells(h: Bytes, u: nat)
    requires u < 0x10000
  {
    && |h| == 4 && DigitOf(h[0], u / 4096) && DigitOf(h[1], u / 256 % 16)
    && DigitOf(h[2], u / 16 % 16) && DigitOf(h[3], u % 16)
  }

  predicate High(u: nat) { 0xD800 <= u <= 0xDBFF }

  predicate LowHalf(u: nat) { 0xDC00 <= u <= 0xDFFF }

  /**
   * A character as it is written: as itself, behind a backslash, as the code of one in four hex digits, or as
   * the codes of two halves. Stray codes stand for nothing: the zero or a second half alone, a first half
   * with no code behind it, and one with a code that is no second half.
   */
  datatype Char =
    | Plain(c: Byte)
    | Escape(c: Byte)
    | Code(u: nat, h: Bytes)
    | Halves(u: nat, h: Bytes, l: Bytes)
    | Stray(v: nat, h: Bytes)
    | StrayHigh(v: nat, h: Bytes)
    | Mismatch(v: nat, h: Bytes, w: nat, l: Bytes)

  const CODE: Bytes := [BACKSLASH, 117]

  function CharText(c: Char): Bytes {
    match c
    case Plain(b) => [b]
    case Escape(b) => [BACKSLASH, b]
    case Code(_, h) => CODE + h
    case Halves(_, h, l) => CODE + h + CODE + l
    case Stray(_, h) => CODE + h
    case StrayHigh(_, h) => CODE + h
    case Mismatch(_, h, _, l) => CODE + h + CODE + l
  }

  predicate ValidChar(c: Char) {
    match c
    case Plain(b) => b != 0 && b != QUOTE && b != BACKSLASH
    case Escape(b) => b != 0 && b != 117
    case Code(u, h) => 0 < u < 0x10000 && !High(u) && !LowHalf(u) && Spells(h, u)
    case Halves(u, h, l) =>
      0x10000 <= u < 0x110000 && Spells(h, 0xD800 + (u - 0x10000) / 0x400) && Spells(l, 0xDC00 + (u - 0x10000) % 0x400)
    case Stray(v, h) => (v == 0 || LowHalf(v)) && Spells(h, v)
    case StrayHigh(v, h) => High(v) && Spells(h, v)
    case Mismatch(v, h, w, l) => High(v) && Spells(h, v) && w < 0x10000 && !LowHalf(w) && Spells(l, w)
  }

  /** The bytes of a character. */
  function CharBytes(c: Char): Bytes
    requires ValidChar(c)
  {
    match c
    case Plain(b) => [b]
    case Escape(b) =>
      if b == 'b' as int then [8] else if b == 't' as int then [9] else if b == 'n' as int then [10]
      else if b == 'f' as int then [12] else if b == 'r' as int then [13] else [b]
    case Code(u, _) => Utf8(u)
    case Halves(u, _, _) => Utf8(u)
    case _ => []
  }

  predicate ValidChars(cs: seq<Char>) {
    cs == [] ||
    (ValidChar(cs[0]) && (cs[0].StrayHigh? && |cs| > 1 ==> cs[1].Plain? || cs[1].Escape?) && ValidChars(cs[1..]))
  }

  function CharsText(cs: seq<Char>): Bytes { if cs == [] then [] else CharText(cs[0]) + CharsText(cs[1..]) }

  function CharsBytes(cs: seq<Char>): Bytes
    requires ValidChars(cs)
  {
    if cs == [] then [] else CharBytes(cs[0]) + CharsBytes(cs[1..])
  }

  function QuotedText(cs: seq<Char>): Bytes { [QUOTE] + CharsText(cs) + [QUOTE] }

  // ---------- UTF-8 ----------

  predicate Continues(b: Byte) { 0x80 <= b <= 0xBF }

  /** The six bits of a continuing byte. */
  function Six(b: Byte): int { b as int - 0x80 }

  /** The coding of a code point: the first byte tells how many continue it, each byte adds its bits in their
      places, and no shorter coding would do (section 3 of RFC 3629). */
  predicate IsUtf8(b: Bytes, u: nat) { OneByte(b, u) || TwoBytes(b, u) || ThreeBytes(b, u) || FourBytes(b, u) }

  predicate OneByte(b: Bytes, u: nat) { |b| == 1 && b[0] <= 0x7F && u == b[0] }

  predicate TwoBytes(b: Bytes, u: nat) {
    && |b| == 2 && 0xC0 <= b[0] <= 0xDF && Continues(b[1])
    && u >= 0x80 && u == (b[0] as int - 0xC0) * 0x40 + Six(b[1])
  }

  predicate ThreeBytes(b: Bytes, u: nat) {
    && |b| == 3 && 0xE0 <= b[0] <= 0xEF && Continues(b[1]) && Continues(b[2])
    && u >= 0x800 && u == (b[0] as int - 0xE0) * 0x1000 + Six(b[1]) * 0x40 + Six(b[2])
  }

  predicate FourBytes(b: Bytes, u: nat) {
    && |b| == 4 && 0xF0 <= b[0] <= 0xF7 && Continues(b[1]) && Continues(b[2]) && Continues(b[3])
    && u >= 0x10000 && u == (b[0] as int - 0xF0) * 0x40000 + Six(b[1]) * 0x1000 + Six(b[2]) * 0x40 + Six(b[3])
  }

  /** The bytes of a code point are its coding, and there is no other. */
  lemma Utf8Iff(b: Bytes, u: nat)
    requires u < 0x110000
    ensures b == Utf8(u) <==> IsUtf8(b, u)
  {
    hide TwoBytes, ThreeBytes, FourBytes;
    TwoIff(b, u);
    ThreeIff(b, u);
    FourIff(b, u);
  }

  lemma TwoIff(b: Bytes, u: nat)
    requires u < 0x110000
    ensures TwoBytes(b, u) <==> 0x80 <= u < 0x800 && b == Utf8(u)
  {
  }

  lemma ThreeIff(b: Bytes, u: nat)
    requires u < 0x110000
    ensures ThreeBytes(b, u) <==> 0x800 <= u < 0x10000 && b == Utf8(u)
  {
    if 0x800 <= u < 0x10000 {
      Sixes(u);
    }
    if ThreeBytes(b, u) {
      var x := (b[0] as int - 0xE0) * 64 + Six(b[1]);
      assert u == x * 64 + Six(b[2]) && u / 64 == x && x / 64 == b[0] as int - 0xE0;
      Sixes(u);
    }
  }

  lemma FourIff(b: Bytes, u: nat)
    requires u < 0x110000
    ensures FourBytes(b, u) <==> 0x10000 <= u && b == Utf8(u)
  {
    if 0x10000 <= u {
      Sixes(u);
    }
    if FourBytes(b, u) {
      var y := (b[0] as int - 0xF0) * 64 + Six(b[1]);
      var x := y * 64 + Six(b[2]);
      assert u == x * 64 + Six(b[3]) && u / 64 == x && x / 64 == y && y / 64 == b[0] as int - 0xF0;
      Sixes(u);
    }
  }

  /** A number in its groups of six bits. */
  lemma Sixes(u: nat)
    ensures u == 0x40 * (u / 64) + u % 64 && u == 0x1000 * (u / 4096) + 0x40 * (u / 64 % 64) + u % 64
    ensures u == 0x40000 * (u / 262144) + 0x1000 * (u / 4096 % 64) + 0x40 * (u / 64 % 64) + u % 64
    ensures u / 4096 == u / 64 / 64 && u / 262144 == u / 4096 / 64
  {
    var x, y := u / 64, u / 4096;
    assert y == x / 64 && u / 262144 == y / 64;
    assert u == 64 * x + u % 64 && x == 64 * y + x % 64 && y == 64 * (y / 64) + y % 64;
  }

  // ---------- numbers ----------

  datatype Exponent = NoExponent | Power(letter: Byte, sign: Bytes, digits: Bytes)

  /** Minus, a zero, digits that begin with none, digits behind a point, and an exponent; each may be missing. */
  datatype Numeral = Numeral(minus: bool, zero: bool, whole: Bytes, part: Bytes, power: Exponent)

  predicate AllDigits(s: Bytes) { forall k :: 0 <= k < |s| ==> Digit(s[k]) }

  predicate ValidPower(p: Exponent) {
    p.Power? ==> (p.letter == 'e' as int || p.letter == 'E' as int) && AllDigits(p.digits)
                 && (p.sign == [] || p.sign == ['+' as int] || p.sign == ['-' as int])
  }

  predicate ValidNumeral(n: Numeral) {
    && AllDigits(n.whole) && (n.whole != [] ==> n.whole[0] != '0' as int) && AllDigits(n.part) && ValidPower(n.power)
    && (n.minus || n.zero || n.whole != [])
  }

  function PowerText(p: Exponent): Bytes { if p.Power? then [p.letter] + p.sign + p.digits else [] }

  function PartText(part: Bytes): Bytes { if part == [] then [] else ['.' as int] + part }

  function NumeralText(n: Numeral): Bytes {
    (if n.minus then ['-' as int] else []) + (if n.zero then ['0' as int] else []) + n.whole + PartText(n.part)
    + PowerText(n.power)
  }

  /** Digits before the point: each place has ten times the weight of the one after it. */
  function Whole(s: Bytes): nat
    requires AllDigits(s)
  {
    if s == [] then 0 else 10 * Whole(s[..|s| - 1]) + (s[|s| - 1] - 48)
  }

  /** Digits after the point: each place has a tenth of the weight of the one before it. */
  function Part(s: Bytes): real
    requires AllDigits(s)
  {
    if s == [] then 0.0 else ((s[0] - 48) as real + Part(s[1..])) / 10.0
  }

  function PowerOf(p: Exponent): int
    requires ValidPower(p)
  {
    if p.NoExponent? then 0 else if p.sign == ['-' as int] then 0 - Whole(p.digits) as int else Whole(p.digits)
  }

  function NumeralValue(n: Numeral): real
    requires ValidNumeral(n)
  {
    (if n.minus then -1.0 else 1.0) * ((Whole(n.whole) as real + Part(n.part)) * Pow10(PowerOf(n.power)))
  }

  // ---------- values ----------

  /** A text; `ws`, `before` and so on are white space. Open is a string that the end of the text ends. */
  datatype Syntax =
    | NullWord
    | FalseWord
    | TrueWord
    | NumberText(n: Numeral)
    | Quoted(cs: seq<Char>)
    | Open(cs: seq<Char>)
    | List(ws: Bytes, items: Items)
    | Record(ws: Bytes, members: Members)

  datatype Items = NoItem | Item(before: Bytes, value: Syntax, after: Bytes, rest: Items)

  datatype Members =
    | NoMember
    | Named(before: Bytes, name: seq<Char>, between: Bytes, ws: Bytes, value: Syntax, after: Bytes, rest: Members)

  predicate Valid(s: Syntax) {
    match s
    case NumberText(n) => ValidNumeral(n)
    case Quoted(cs) => ValidChars(cs)
    case Open(cs) => ValidChars(cs)
    case List(ws, items) => Space(ws) && ValidItems(items)
    case Record(ws, ms) => Space(ws) && ValidMembers(ms)
    case _ => true
  }

  predicate ValidItems(c: Items) {
    c.Item? ==> Space(c.before) && Valid(c.value) && !c.value.Open? && Space(c.after) && ValidItems(c.rest)
  }

  predicate ValidMembers(c: Members) {
    c.Named? ==> Space(c.before) && ValidChars(c.name) && Space(c.between) && Space(c.ws) && Valid(c.value)
                 && !c.value.Open? && Space(c.after) && ValidMembers(c.rest)
  }

  function Text(s: Syntax): Bytes {
    match s
    case NullWord => Chars("null")
    case FalseWord => Chars("false")
    case TrueWord => Chars("true")
    case NumberText(n) => NumeralText(n)
    case Quoted(cs) => QuotedText(cs)
    case Open(cs) => [QUOTE] + CharsText(cs)
    case List(ws, items) => ['[' as int] + ws + (if items.NoItem? then [']' as int] else ItemsText(items))
    case Record(ws, ms) => ['{' as int] + ws + (if ms.NoMember? then ['}' as int] else MembersText(ms))
  }

  /** The items with what follows them: commas between them, and the bracket at the end. */
  function ItemsText(c: Items): Bytes {
    if c.NoItem? then []
    else c.before + Text(c.value) + c.after
         + (if c.rest.NoItem? then [']' as int] else [',' as int] + ItemsText(c.rest))
  }

  function MembersText(c: Members): Bytes {
    if c.NoMember? then []
    else (c.before + QuotedText(c.name) + c.between + [':' as int])
         + (c.ws + Text(c.value) + c.after
            + (if c.rest.NoMember? then ['}' as int] else [',' as int] + MembersText(c.rest)))
  }

  function Value(s: Syntax): Json
    requires Valid(s)
  {
    match s
    case NullWord => Null
    case FalseWord => False
    case TrueWord => True
    case NumberText(n) => Number(NumeralValue(n))
    case Quoted(cs) => String(CharsBytes(cs))
    case Open(cs) => String(CharsBytes(cs))
    case List(_, items) => Array(ItemsValue(items))
    case Record(_, ms) => Object(MembersValue(ms))
  }

  function ItemsValue(c: Items): seq<Json>
    requires ValidItems(c)
  {
    if c.NoItem? then [] else [Value(c.value)] + ItemsValue(c.rest)
  }

  function MembersValue(c: Members): seq<Member>
    requires ValidMembers(c)
  {
    if c.NoMember? then [] else [Member(CharsBytes(c.name), Value(c.value))] + MembersValue(c.rest)
  }

  /** The bytes of a word. */
  function Chars(s: string): (b: Bytes)
    requires forall k :: 0 <= k < |s| ==> s[k] as int < 128
  {
    seq(|s|, k requires 0 <= k < |s| => s[k] as int)
  }

  lemma Words()
    ensures Chars("null") == NULL_TEXT && Chars("false") == FALSE_TEXT && Chars("true") == TRUE_TEXT
  {
  }
}
