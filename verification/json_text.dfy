/** cJSON.cc: the text of values, and what the parser reads, as functions. */
module JsonText {
  import opened Common

  /** A string of C: no byte of it is its end. */
  predicate CString(s: Bytes) { forall i :: 0 <= i < |s| ==> s[i] != 0 }

  /** A tree of cJSON nodes; the names of an object's members are the `string` fields of its children. */
  datatype Json =
    | Null
    | False
    | True
    | Number(x: real)
    | String(s: Bytes)
    | Array(items: seq<Json>)
    | Object(members: seq<Member>)

  datatype Member = Member(name: Bytes, value: Json)

  /**
   * The outcome of a parser at a position. Undefined: the source would read past the end of the
   * text, or take a \u without four hex digits, which it leaves to sscanf.
   */
  datatype Result<T> = Fail | Undefined | Ok(value: T, end: nat)

  // ---------- characters ----------

  const QUOTE: Byte := 34
  const BACKSLASH: Byte := 92

  /** The byte at a position; the text ends with a zero. */
  function Ch(t: Bytes, i: nat): Byte { if i < |t| then t[i] else 0 }

  predicate Digit(c: Byte) { 48 <= c <= 57 }

  predicate StartsWith(t: Bytes, i: nat, s: Bytes) { i + |s| <= |t| && t[i..i + |s|] == s }

  const NULL_TEXT: Bytes := [110, 117, 108, 108]
  const FALSE_TEXT: Bytes := [102, 97, 108, 115, 101]
  const TRUE_TEXT: Bytes := [116, 114, 117, 101]

  /** skip */
  function Skip(t: Bytes, i: nat): (j: nat)
    requires i <= |t|
    ensures i <= j <= |t|
    decreases |t| - i
  {
    if 0 < Ch(t, i) <= 32 then Skip(t, i + 1) else i
  }

  // ---------- numbers ----------

  /** The digits at a position, taken into a number; where they end. */
  function Digits(t: Bytes, i: nat, n: real): (r: (real, nat))
    requires i <= |t|
    ensures i <= r.1 <= |t|
    decreases |t| - i
  {
    if Digit(Ch(t, i)) then Digits(t, i + 1, n * 10.0 + (Ch(t, i) - 48) as real) else (n, i)
  }

  /** The same for an exponent. */
  function IntDigits(t: Bytes, i: nat, n: nat): (r: (nat, nat))
    requires i <= |t|
    ensures i <= r.1 <= |t|
    decreases |t| - i
  {
    if Digit(Ch(t, i)) then IntDigits(t, i + 1, n * 10 + (Ch(t, i) - 48)) else (n, i)
  }

  function Pow10(e: int): real
    decreases if e < 0 then -e else e
  {
    if e == 0 then 1.0 else if e > 0 then 10.0 * Pow10(e - 1) else Pow10(e + 1) / 10.0
  }

  function Scaled(sign: real, n: real, e: int): real { sign * n * Pow10(e) }

  /** parse_number, with real numbers for the doubles. */
  function ParseNumber(t: Bytes, i: nat): (r: Result<Json>)
    requires i <= |t|
    ensures r.Ok? && i <= r.end <= |t|
  {
    var sign := if Ch(t, i) == 45 then -1.0 else 1.0;
    var i1 := if Ch(t, i) == 45 then i + 1 else i;
    var i2 := if Ch(t, i1) == 48 then i1 + 1 else i1;
    var (n3, i3) := if 49 <= Ch(t, i2) <= 57 then Digits(t, i2, 0.0) else (0.0, i2);
    var fraction := Ch(t, i3) == 46 && Digit(Ch(t, i3 + 1));
    var (n4, i4) := if fraction then Digits(t, i3 + 1, n3) else (n3, i3);
    var scale: int := if fraction then i3 + 1 - i4 else 0;
    var (e, i5) := Exponent(t, i4);
    Ok(Number(Scaled(sign, n4, scale + e)), i5)
  }

  function Exponent(t: Bytes, i: nat): (r: (int, nat))
    requires i <= |t|
    ensures i <= r.1 <= |t|
  {
    if Ch(t, i) == 101 || Ch(t, i) == 69 then
      var c := Ch(t, i + 1);
      var j := if c == 43 || c == 45 then i + 2 else i + 1;
      var (n, k) := IntDigits(t, j, 0);
      (if c == 45 then 0 - n as int else n, k)
    else (0, i)
  }

  // ---------- strings ----------

  function HexDigit(c: Byte): (d: int)
    ensures -1 <= d < 16
  {
    if Digit(c) then c - 48 else if 97 <= c <= 102 then c - 87 else if 65 <= c <= 70 then c - 55 else -1
  }

  /** Four hex digits, or -1 where there are not four. */
  function Hex4(t: Bytes, i: nat): (u: int)
    ensures -1 <= u < 0x10000 && (u >= 0 ==> i + 4 <= |t|)
  {
    var a, b, c, d := HexDigit(Ch(t, i)), HexDigit(Ch(t, i + 1)), HexDigit(Ch(t, i + 2)), HexDigit(Ch(t, i + 3));
    if a < 0 || b < 0 || c < 0 || d < 0 then -1 else ((a * 16 + b) * 16 + c) * 16 + d
  }

  /** The bytes of a code point. */
  function Utf8(u: nat): Bytes
    requires u < 0x110000
  {
    if u < 0x80 then [u]
    else if u < 0x800 then [0xC0 + u / 64, 0x80 + u % 64]
    else if u < 0x10000 then [0xE0 + u / 4096, 0x80 + u / 64 % 64, 0x80 + u % 64]
    else [0xF0 + u / 262144, 0x80 + u / 4096 % 64, 0x80 + u / 64 % 64, 0x80 + u % 64]
  }

  /** What a \u at `i` stands for, and where it ends; nothing for a zero and for halves that do not match. */
  function Unicode(t: Bytes, i: nat): (r: Result<Bytes>)
    requires i + 1 < |t|
    ensures r.Ok? ==> i + 6 <= r.end <= |t|
  {
    var u := Hex4(t, i + 2);
    if u < 0 then Undefined
    else if 0xDC00 <= u <= 0xDFFF || u == 0 then Ok([], i + 6)
    else if 0xD800 <= u <= 0xDBFF then
      if Ch(t, i + 6) != BACKSLASH || Ch(t, i + 7) != 117 then Ok([], i + 6)
      else
        var v := Hex4(t, i + 8);
        if v < 0 then Undefined
        else if v < 0xDC00 || v > 0xDFFF then Ok([], i + 12)
        else Ok(Utf8(0x10000 + (u - 0xD800) * 1024 + (v - 0xDC00)), i + 12)
    else Ok(Utf8(u), i + 6)
  }

  /** One character of a string, escaped or not. */
  function Character(t: Bytes, i: nat): (r: Result<Bytes>)
    requires i < |t|
    ensures r.Ok? ==> i < r.end <= |t|
  {
    if t[i] != BACKSLASH then Ok([t[i]], i + 1)
    else
      var c := Ch(t, i + 1);
      if c == 0 then Undefined
      else if c == 98 then Ok([8], i + 2)
      else if c == 102 then Ok([12], i + 2)
      else if c == 110 then Ok([10], i + 2)
      else if c == 114 then Ok([13], i + 2)
      else if c == 116 then Ok([9], i + 2)
      else if c == 117 then Unicode(t, i)
      else Ok([c], i + 2)
  }

  /** The characters up to the closing quote, or to the end of the text. */
  function Characters(t: Bytes, i: nat): (r: Result<Bytes>)
    requires i <= |t|
    ensures !r.Fail? && (r.Ok? ==> i <= r.end <= |t|)
    decreases |t| - i
  {
    if Ch(t, i) == QUOTE || Ch(t, i) == 0 then Ok([], i)
    else
      match Character(t, i)
      case Ok(c, j) => Prepend(c, Characters(t, j))
      case _ => Undefined
  }

  function Prepend<T>(s: seq<T>, r: Result<seq<T>>): (p: Result<seq<T>>)
    ensures r.Ok? <==> p.Ok?
    ensures r.Ok? ==> p == Ok(s + r.value, r.end)
    ensures r.Fail? <==> p.Fail?
  {
    match r
    case Ok(v, e) => Ok(s + v, e)
    case Fail => Fail
    case Undefined => Undefined
  }

  /** parse_string */
  function ParseString(t: Bytes, i: nat): (r: Result<Bytes>)
    requires i <= |t|
    ensures r.Ok? ==> i < r.end <= |t|
  {
    if Ch(t, i) != QUOTE then Fail
    else
      match Characters(t, i + 1)
      case Ok(s, j) => Ok(s, if Ch(t, j) == QUOTE then j + 1 else j)
      case _ => Undefined
  }

  // ---------- values ----------

  /** parse_value */
  function ParseValue(t: Bytes, i: nat): (r: Result<Json>)
    requires i <= |t|
    ensures r.Ok? ==> i <= r.end <= |t|
    decreases |t| - i, 0
  {
    if StartsWith(t, i, NULL_TEXT) then Ok(Null, i + 4)
    else if StartsWith(t, i, FALSE_TEXT) then Ok(False, i + 5)
    else if StartsWith(t, i, TRUE_TEXT) then Ok(True, i + 4)
    else if Ch(t, i) == QUOTE then
      match ParseString(t, i)
      case Ok(s, j) => Ok(String(s), j)
      case Fail => Fail
      case Undefined => Undefined
    else if Ch(t, i) == 45 || Digit(Ch(t, i)) then ParseNumber(t, i)
    else if Ch(t, i) == 91 then
      var j := Skip(t, i + 1);
      if Ch(t, j) == 93 then Ok(Array([]), j + 1)
      else
        match ParseItems(t, j)
        case Ok(items, k) => Ok(Array(items), k)
        case Fail => Fail
        case Undefined => Undefined
    else if Ch(t, i) == 123 then
      var j := Skip(t, i + 1);
      if Ch(t, j) == 125 then Ok(Object([]), j + 1)
      else
        match ParseMembers(t, j)
        case Ok(ms, k) => Ok(Object(ms), k)
        case Fail => Fail
        case Undefined => Undefined
    else Fail
  }

  /** The items of an array from one of them on, with the closing bracket. */
  function ParseItems(t: Bytes, i: nat): (r: Result<seq<Json>>)
    requires i <= |t|
    ensures r.Ok? ==> i <= r.end <= |t|
    decreases |t| - i, 1
  {
    match ParseValue(t, Skip(t, i))
    case Ok(v, j) =>
      var k := Skip(t, j);
      if Ch(t, k) == 44 then Prepend([v], ParseItems(t, k + 1))
      else if Ch(t, k) == 93 then Ok([v], k + 1)
      else Fail
    case Fail => Fail
    case Undefined => Undefined
  }

  /** A member of an object: its name, a colon and its value. */
  function ParseMember(t: Bytes, i: nat): (r: Result<Member>)
    requires i <= |t|
    ensures r.Ok? ==> i < r.end <= |t|
    decreases |t| - i, 1
  {
    match ParseString(t, Skip(t, i))
    case Ok(name, j) =>
      var k := Skip(t, j);
      if Ch(t, k) != 58 then Fail
      else
        (match ParseValue(t, Skip(t, k + 1))
         case Ok(v, e) => Ok(Member(name, v), e)
         case Fail => Fail
         case Undefined => Undefined)
    case Fail => Fail
    case Undefined => Undefined
  }

  /** The members of an object from one of them on, with the closing brace. */
  function ParseMembers(t: Bytes, i: nat): (r: Result<seq<Member>>)
    requires i <= |t|
    ensures r.Ok? ==> i <= r.end <= |t|
    decreases |t| - i, 2
  {
    match ParseMember(t, i)
    case Ok(m, j) =>
      var k := Skip(t, j);
      if Ch(t, k) == 44 then Prepend([m], ParseMembers(t, k + 1))
      else if Ch(t, k) == 125 then Ok([m], k + 1)
      else Fail
    case Fail => Fail
    case Undefined => Undefined
  }

  /** cJSON_Parse */
  function Parse(t: Bytes): (r: Result<Json>)
  {
    ParseValue(t, Skip(t, 0))
  }

  // ---------- printing ----------

  function Repeat(c: Byte, n: nat): (s: Bytes)
    ensures |s| == n
  {
    seq(n, _ => c)
  }

  /** %d for a number that is not negative. */
  function Decimal(n: nat): (s: Bytes)
    ensures |s| > 0
  {
    if n < 10 then [48 + n] else Decimal(n / 10) + [48 + n % 10]
  }

  const INT_MAX := 0x7FFF_FFFF

  predicate IsInt(x: real) { x.Floor as real == x && -INT_MAX - 1 <= x.Floor <= INT_MAX }

  /** The integers of 32 bits, and no other numbers. */
  lemma IsIntIff(x: real, n: int)
    ensures IsInt(x) ==> -0x8000_0000 as real <= x <= 0x7FFF_FFFF as real && x == x.Floor as real
    ensures IsInt(n as real) <==> -0x8000_0000 <= n <= 0x7FFF_FFFF
  {
  }

  /** print_number, for a number that is a 32-bit integer. */
  function PrintNumber(x: real): (s: Bytes)
    requires IsInt(x)
  {
    if x.Floor < 0 then [45] + Decimal(-x.Floor) else Decimal(x.Floor)
  }

  function HexChar(d: nat): Byte
    requires d < 16
  {
    if d < 10 then 48 + d else 87 + d
  }

  /** How print_string_ptr writes a byte. */
  function Escaped(c: Byte): (s: Bytes)
    ensures |s| > 0
  {
    if c > 31 && c != QUOTE && c != BACKSLASH then [c]
    else if c == BACKSLASH then [BACKSLASH, BACKSLASH]
    else if c == QUOTE then [BACKSLASH, QUOTE]
    else if c == 8 then [BACKSLASH, 98]
    else if c == 12 then [BACKSLASH, 102]
    else if c == 10 then [BACKSLASH, 110]
    else if c == 13 then [BACKSLASH, 114]
    else if c == 9 then [BACKSLASH, 116]
    else [BACKSLASH, 117, 48, 48, HexChar(c / 16), HexChar(c % 16)]
  }

  function EscapedAll(s: Bytes): Bytes { if s == [] then [] else Escaped(s[0]) + EscapedAll(s[1..]) }

  /** print_string_ptr */
  function PrintString(s: Bytes): Bytes { [QUOTE] + EscapedAll(s) + [QUOTE] }

  /** Values that a text can stand for: integers of 32 bits, strings without a zero, and trees of them. */
  predicate Printable(v: Json)
  {
    match v
    case Number(x) => IsInt(x)
    case String(s) => CString(s)
    case Array(items) => forall i :: 0 <= i < |items| ==> Printable(items[i])
    case Object(ms) => forall i :: 0 <= i < |ms| ==> CString(ms[i].name) && Printable(ms[i].value)
    case _ => true
  }

  /** print_value; `fmt` for the form with line breaks and tabs. */
  function Print(v: Json, depth: nat, fmt: bool): (s: Bytes)
    requires Printable(v)
    decreases v, 0
  {
    match v
    case Null => NULL_TEXT
    case False => FALSE_TEXT
    case True => TRUE_TEXT
    case Number(x) => PrintNumber(x)
    case String(s) => PrintString(s)
    case Array(items) => [91] + PrintItems(v, items, 0, depth + 1, fmt) + [93]
    case Object(ms) =>
      if ms == [] then [123] + (if fmt then [10] + Repeat(9, if depth > 0 then depth - 1 else 0) else []) + [125]
      else
        [123] + (if fmt then [10] else []) + PrintMembers(v, ms, 0, depth + 1, fmt)
        + (if fmt then Repeat(9, depth) else []) + [125]
  }

  /** The items of an array from the `i`-th on. */
  function PrintItems(v: Json, items: seq<Json>, i: nat, depth: nat, fmt: bool): Bytes
    requires v == Array(items) && Printable(v) && i <= |items|
    decreases v, 0, |items| - i
  {
    if i == |items| then []
    else
      Print(items[i], depth, fmt)
      + (if i != |items| - 1 then [44] + (if fmt then [32] else []) else [])
      + PrintItems(v, items, i + 1, depth, fmt)
  }

  /** The members of an object from the `i`-th on. */
  function PrintMembers(v: Json, ms: seq<Member>, i: nat, depth: nat, fmt: bool): Bytes
    requires v == Object(ms) && Printable(v) && i <= |ms|
    decreases v, 0, |ms| - i
  {
    if i == |ms| then []
    else
      (if fmt then Repeat(9, depth) else []) + PrintString(ms[i].name) + [58] + (if fmt then [9] else [])
      + Print(ms[i].value, depth, fmt)
      + (if i != |ms| - 1 then [44] else []) + (if fmt then [10] else [])
      + PrintMembers(v, ms, i + 1, depth, fmt)
  }
}
