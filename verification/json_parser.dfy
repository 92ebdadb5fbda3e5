/** cJSON.cc: the parser and the printer as they run, proved against the functions of JsonText. */
module JsonParser {
  import opened Common
  import opened JsonText
  import JsonAccept
  import JsonValues
  import JsonRoundTrip

  // ---------- reading ----------

  /** skip */
  method SkipSpace(t: Bytes, start: nat) returns (i: nat)
    requires start <= |t|
    ensures i == Skip(t, start)
  {
    i := start;
    while Ch(t, i) != 0 && Ch(t, i) <= 32
      invariant i <= |t| && Skip(t, i) == Skip(t, start)
      decreases |t| - i
    {
      i := i + 1;
    }
  }

  /** parse_number */
  method ReadNumber(t: Bytes, start: nat) returns (r: Result<Json>)
    requires start <= |t|
    ensures r == ParseNumber(t, start)
  {
    hide Scaled, Exponent, Digits, Digit;
    var num := start;
    var n, sign, scale: int := 0.0, 1.0, 0;
    if Ch(t, num) == 45 {
      sign := -1.0;
      num := num + 1;
    }
    if Ch(t, num) == 48 {
      num := num + 1;
    }
    if 49 <= Ch(t, num) <= 57 {
      n, num := ReadDigits(t, num);
    }
    if Ch(t, num) == 46 && Digit(Ch(t, num + 1)) {
      n, num, scale := ReadFraction(t, num + 1, n);
    }
    var e;
    e, num := ReadExponent(t, num);
    return Ok(Number(Scaled(sign, n, scale + e)), num);
  }

  /** The digits before the point in parse_number. */
  method ReadDigits(t: Bytes, start: nat) returns (n: real, num: nat)
    requires start <= |t|
    ensures (n, num) == Digits(t, start, 0.0)
  {
    n, num := 0.0, start;
    while Digit(Ch(t, num))
      invariant num <= |t| && Digits(t, num, n) == Digits(t, start, 0.0)
      decreases |t| - num
    {
      n := n * 10.0 + (Ch(t, num) - 48) as real;
      num := num + 1;
    }
  }

  /** The digits after the point. */
  method ReadFraction(t: Bytes, start: nat, n0: real) returns (n: real, num: nat, scale: int)
    requires start <= |t|
    ensures (n, num) == Digits(t, start, n0) && scale == start - num
  {
    n, num, scale := n0, start, 0;
    while Digit(Ch(t, num))
      invariant start <= num <= |t| && Digits(t, num, n) == Digits(t, start, n0) && scale == start - num
      decreases |t| - num
    {
      n := n * 10.0 + (Ch(t, num) - 48) as real;
      num := num + 1;
      scale := scale - 1;
    }
  }

  /** The exponent in parse_number. */
  method ReadExponent(t: Bytes, start: nat) returns (e: int, num: nat)
    requires start <= |t|
    ensures (e, num) == Exponent(t, start)
  {
    var subscale, signsubscale := 0, 1;
    num := start;
    if Ch(t, num) == 101 || Ch(t, num) == 69 {
      num := num + 1;
      if Ch(t, num) == 43 {
        num := num + 1;
      } else if Ch(t, num) == 45 {
        signsubscale := -1;
        num := num + 1;
      }
      ghost var i5 := num;
      while Digit(Ch(t, num))
        invariant num <= |t| && subscale >= 0 && IntDigits(t, num, subscale) == IntDigits(t, i5, 0)
        decreases |t| - num
      {
        subscale := subscale * 10 + (Ch(t, num) - 48);
        num := num + 1;
      }
    }
    return subscale * signsubscale, num;
  }

  /** parse_string */
  method ReadString(t: Bytes, str: nat) returns (r: Result<Bytes>)
    requires str <= |t|
    ensures r == ParseString(t, str)
  {
    if Ch(t, str) != QUOTE {
      return Fail;
    }
    var ptr := str + 1;
    var out: Bytes := [];
    PrependNothing(Characters(t, ptr));
    while Ch(t, ptr) != QUOTE && Ch(t, ptr) != 0
      invariant ptr <= |t| && Characters(t, str + 1) == Prepend(out, Characters(t, ptr))
      decreases |t| - ptr
    {
      var c: Result<Bytes>;
      if Ch(t, ptr) != BACKSLASH {
        c := Ok([Ch(t, ptr)], ptr + 1);
      } else {
        c := ReadEscape(t, ptr);
      }
      if c.Undefined? {
        return Undefined;
      }
      PrependTwice(out, c.value, Characters(t, c.end));
      out := out + c.value;
      ptr := c.end;
    }
    assert out + [] == out;
    if Ch(t, ptr) == QUOTE {
      ptr := ptr + 1;
    }
    return Ok(out, ptr);
  }

  /** The switch of parse_string. */
  method ReadEscape(t: Bytes, start: nat) returns (r: Result<Bytes>)
    requires start < |t| && t[start] == BACKSLASH
    ensures r == Character(t, start) && !r.Fail?
  {
    var ptr := start + 1;
    var out: Bytes := [];
    match Ch(t, ptr) {
      case 0 =>
        return Undefined;
      case 98 => out := [8];
      case 102 => out := [12];
      case 110 => out := [10];
      case 114 => out := [13];
      case 116 => out := [9];
      case 117 =>
        r := ReadUnicode(t, start);
        return;
      case c => out := [c];
    }
    return Ok(out, ptr + 1);
  }

  /** The case of parse_string for the units of UTF-16. */
  method ReadUnicode(t: Bytes, start: nat) returns (r: Result<Bytes>)
    requires start + 1 < |t|
    ensures r == Unicode(t, start)
  {
    hide Hex4, Utf8;
    var ptr := start + 1;
    var uc := Hex4(t, ptr + 1);
    if uc < 0 {
      return Undefined;
    }
    ptr := ptr + 4;
    if (0xDC00 <= uc <= 0xDFFF) || uc == 0 {
      return Ok([], ptr + 1);
    }
    if 0xD800 <= uc <= 0xDBFF {
      if Ch(t, ptr + 1) != BACKSLASH || Ch(t, ptr + 2) != 117 {
        return Ok([], ptr + 1);
      }
      var uc2 := Hex4(t, ptr + 3);
      if uc2 < 0 {
        return Undefined;
      }
      ptr := ptr + 6;
      if uc2 < 0xDC00 || uc2 > 0xDFFF {
        return Ok([], ptr + 1);
      }
      uc := 0x10000 + (uc % 0x400) * 1024 + uc2 % 0x400;
    }
    return Ok(Utf8(uc), ptr + 1);
  }

  lemma PrependNothing<T>(r: Result<seq<T>>)
    ensures Prepend([], r) == r
  {
    if r.Ok? {
      assert [] + r.value == r.value;
    }
  }

  lemma PrependTwice<T>(a: seq<T>, b: seq<T>, r: Result<seq<T>>)
    ensures Prepend(a, Prepend(b, r)) == Prepend(a + b, r)
  {
    if r.Ok? {
      assert a + (b + r.value) == a + b + r.value;
    }
  }

  /** parse_value */
  method ReadValue(t: Bytes, value: nat) returns (r: Result<Json>)
    requires value <= |t|
    ensures r == ParseValue(t, value)
    decreases |t| - value, 0
  {
    if StartsWith(t, value, NULL_TEXT) {
      return Ok(Null, value + 4);
    }
    if StartsWith(t, value, FALSE_TEXT) {
      return Ok(False, value + 5);
    }
    if StartsWith(t, value, TRUE_TEXT) {
      return Ok(True, value + 4);
    }
    if Ch(t, value) == QUOTE {
      var s := ReadString(t, value);
      return if s.Ok? then Ok(String(s.value), s.end) else if s.Fail? then Fail else Undefined;
    }
    if Ch(t, value) == 45 || Digit(Ch(t, value)) {
      r := ReadNumber(t, value);
      return;
    }
    if Ch(t, value) == 91 {
      r := ReadArray(t, value);
      return;
    }
    if Ch(t, value) == 123 {
      r := ReadObject(t, value);
      return;
    }
    return Fail;
  }

  /** What is left of an array behind one of its items. */
  ghost function MoreItems(t: Bytes, k: nat): Result<seq<Json>>
    requires k <= |t|
  {
    if Ch(t, k) == 44 then ParseItems(t, k + 1) else if Ch(t, k) == 93 then Ok([], k + 1) else Fail
  }

  lemma ItemsStep(t: Bytes, i: nat)
    requires i <= |t|
    ensures ParseItems(t, i) == match ParseValue(t, Skip(t, i))
                                case Ok(v, j) => Prepend([v], MoreItems(t, Skip(t, j)))
                                case Fail => Fail
                                case Undefined => Undefined
  {
    var v := ParseValue(t, Skip(t, i));
    if v.Ok? {
      assert [v.value] + [] == [v.value];
    }
  }

  /** parse_array */
  method ReadArray(t: Bytes, start: nat) returns (r: Result<Json>)
    requires start < |t| && Ch(t, start) == 91
    ensures r == ParseValue(t, start)
    decreases |t| - start, 0, 0
  {
    hide ParseValue, ParseItems, Skip, MoreItems;
    JsonValues.ArrayStep(t, start);
    var value := SkipSpace(t, start + 1);
    if Ch(t, value) == 93 {
      return Ok(Array([]), value + 1);
    }
    ghost var first := value;
    ItemsStep(t, first);
    var at := SkipSpace(t, value);
    var v := ReadValue(t, at);
    if !v.Ok? {
      return v;
    }
    var items := [v.value];
    value := SkipSpace(t, v.end);
    while Ch(t, value) == 44
      invariant start < value <= |t| && ParseItems(t, first) == Prepend(items, MoreItems(t, value))
      decreases |t| - value
    {
      MoreStep(t, value);
      ItemsStep(t, value + 1);
      at := SkipSpace(t, value + 1);
      v := ReadValue(t, at);
      if !v.Ok? {
        return v;
      }
      PrependTwice(items, [v.value], MoreItems(t, Skip(t, v.end)));
      items := items + [v.value];
      value := SkipSpace(t, v.end);
    }
    MoreStep(t, value);
    assert items + [] == items;
    if Ch(t, value) == 93 {
      return Ok(Array(items), value + 1);
    }
    return Fail;
  }

  lemma MoreStep(t: Bytes, k: nat)
    requires k <= |t|
    ensures Ch(t, k) == 44 ==> MoreItems(t, k) == ParseItems(t, k + 1)
    ensures Ch(t, k) == 93 ==> MoreItems(t, k) == Ok([], k + 1)
    ensures Ch(t, k) != 44 && Ch(t, k) != 93 ==> MoreItems(t, k) == Fail
  {
  }

  /** What is left of an object behind one of its members. */
  ghost function MoreMembers(t: Bytes, k: nat): Result<seq<Member>>
    requires k <= |t|
  {
    if Ch(t, k) == 44 then ParseMembers(t, k + 1) else if Ch(t, k) == 125 then Ok([], k + 1) else Fail
  }

  lemma MembersStep(t: Bytes, i: nat)
    requires i <= |t|
    ensures ParseMembers(t, i) == match ParseMember(t, i)
                                  case Ok(m, j) => Prepend([m], MoreMembers(t, Skip(t, j)))
                                  case Fail => Fail
                                  case Undefined => Undefined
  {
    var m := ParseMember(t, i);
    if m.Ok? {
      assert [m.value] + [] == [m.value];
    }
  }

  lemma MoreMembersStep(t: Bytes, k: nat)
    requires k <= |t|
    ensures Ch(t, k) == 44 ==> MoreMembers(t, k) == ParseMembers(t, k + 1)
    ensures Ch(t, k) == 125 ==> MoreMembers(t, k) == Ok([], k + 1)
    ensures Ch(t, k) != 44 && Ch(t, k) != 125 ==> MoreMembers(t, k) == Fail
  {
  }

  /** A name, a colon and a value, as parse_object reads them in two places. */
  method ReadMember(t: Bytes, start: nat) returns (r: Result<Member>)
    requires start <= |t|
    ensures r == ParseMember(t, start)
    decreases |t| - start, 1
  {
    var at := SkipSpace(t, start);
    var name := ReadString(t, at);
    if !name.Ok? {
      return if name.Fail? then Fail else Undefined;
    }
    var value := SkipSpace(t, name.end);
    if Ch(t, value) != 58 {
      return Fail;
    }
    at := SkipSpace(t, value + 1);
    var v := ReadValue(t, at);
    return if v.Ok? then Ok(Member(name.value, v.value), v.end) else if v.Fail? then Fail else Undefined;
  }

  /** parse_object */
  method ReadObject(t: Bytes, start: nat) returns (r: Result<Json>)
    requires start < |t| && Ch(t, start) == 123
    ensures r == ParseValue(t, start)
    decreases |t| - start, 0, 0
  {
    hide ParseValue, ParseMembers, ParseMember, Skip, MoreMembers;
    JsonValues.ObjectStep(t, start);
    var value := SkipSpace(t, start + 1);
    if Ch(t, value) == 125 {
      return Ok(Object([]), value + 1);
    }
    ghost var first := value;
    MembersStep(t, first);
    var m := ReadMember(t, value);
    if !m.Ok? {
      return if m.Fail? then Fail else Undefined;
    }
    var members := [m.value];
    value := SkipSpace(t, m.end);
    while Ch(t, value) == 44
      invariant start < value <= |t| && ParseMembers(t, first) == Prepend(members, MoreMembers(t, value))
      decreases |t| - value
    {
      MoreMembersStep(t, value);
      MembersStep(t, value + 1);
      m := ReadMember(t, value + 1);
      if !m.Ok? {
        return if m.Fail? then Fail else Undefined;
      }
      PrependTwice(members, [m.value], MoreMembers(t, Skip(t, m.end)));
      members := members + [m.value];
      value := SkipSpace(t, m.end);
    }
    MoreMembersStep(t, value);
    assert members + [] == members;
    if Ch(t, value) == 125 {
      return Ok(Object(members), value + 1);
    }
    return Fail;
  }

  // ---------- printing ----------

  /** The switch of print_string_ptr. */
  method WriteByte(token: Byte) returns (e: Bytes)
    ensures e == Escaped(token)
  {
    if token > 31 && token != QUOTE && token != BACKSLASH {
      e := [token];
    } else {
      match token {
        case 92 => e := [BACKSLASH, 92];
        case 34 => e := [BACKSLASH, 34];
        case 8 => e := [BACKSLASH, 98];
        case 12 => e := [BACKSLASH, 102];
        case 10 => e := [BACKSLASH, 110];
        case 13 => e := [BACKSLASH, 114];
        case 9 => e := [BACKSLASH, 116];
        case _ => e := [BACKSLASH, 117, 48, 48, HexChar(token / 16), HexChar(token % 16)];
      }
    }
  }

  /** print_string_ptr */
  method WriteString(str: Bytes) returns (out: Bytes)
    ensures out == PrintString(str)
  {
    hide Escaped;
    out := [QUOTE];
    var i := 0;
    assert str[0..] == str;
    while i < |str|
      invariant i <= |str| && [QUOTE] + EscapedAll(str) == out + EscapedAll(str[i..])
    {
      var e := WriteByte(str[i]);
      assert str[i..][1..] == str[i + 1..];
      assert out + (e + EscapedAll(str[i + 1..])) == out + e + EscapedAll(str[i + 1..]);
      out := out + e;
      i := i + 1;
    }
    assert str[|str|..] == [] && out + [] == out;
    out := out + [QUOTE];
  }

  lemma PrintedArray(v: Json, depth: nat, fmt: bool)
    requires v.Array? && Printable(v)
    ensures Print(v, depth, fmt) == [91] + PrintItems(v, v.items, 0, depth + 1, fmt) + [93]
    ensures v.items == [] ==> PrintItems(v, v.items, 0, depth + 1, fmt) == []
  {
  }

  lemma PrintedItems(v: Json, k: nat, depth: nat, fmt: bool)
    requires v.Array? && Printable(v) && k < |v.items|
    ensures Printable(v.items[k])
    ensures PrintItems(v, v.items, k, depth, fmt)
            == Print(v.items[k], depth, fmt) + (if k != |v.items| - 1 then [44] + (if fmt then [32] else []) else [])
               + PrintItems(v, v.items, k + 1, depth, fmt)
    ensures PrintItems(v, v.items, |v.items|, depth, fmt) == []
  {
  }

  lemma PrintedObject(v: Json, depth: nat, fmt: bool)
    requires v.Object? && Printable(v)
    ensures var first: Bytes := if fmt then [10] else [];
            var few := JsonRoundTrip.Tabs(if depth > 0 then depth - 1 else 0, fmt);
            var tabs := JsonRoundTrip.Tabs(depth, fmt);
            Print(v, depth, fmt)
            == if v.members == [] then [123] + (first + few) + [125]
               else [123] + first + PrintMembers(v, v.members, 0, depth + 1, fmt) + tabs + [125]
  {
    var first: Bytes := if fmt then [10] else [];
    assert first + [] == first;
  }

  /** A member as it is printed, without what separates it from the next. */
  function MemberText(v: Json, k: nat, depth: nat, fmt: bool): Bytes
    requires v.Object? && Printable(v) && k < |v.members|
  {
    (if fmt then Repeat(9, depth) else []) + PrintString(v.members[k].name) + [58] + (if fmt then [9] else [])
    + Print(v.members[k].value, depth, fmt)
  }

  lemma PrintedMembers(v: Json, k: nat, depth: nat, fmt: bool)
    requires v.Object? && Printable(v) && k < |v.members|
    ensures CString(v.members[k].name) && Printable(v.members[k].value)
    ensures PrintMembers(v, v.members, k, depth, fmt)
            == MemberText(v, k, depth, fmt) + (if k != |v.members| - 1 then [44] else []) + (if fmt then [10] else [])
               + PrintMembers(v, v.members, k + 1, depth, fmt)
    ensures PrintMembers(v, v.members, |v.members|, depth, fmt) == []
  {
  }

  /** print_value */
  method WriteValue(v: Json, depth: nat, fmt: bool) returns (out: Bytes)
    requires Printable(v)
    ensures out == Print(v, depth, fmt)
    decreases v, 1
  {
    match v
    case Null => out := NULL_TEXT;
    case False => out := FALSE_TEXT;
    case True => out := TRUE_TEXT;
    case Number(x) => out := PrintNumber(x);
    case String(s) => out := WriteString(s);
    case Array(_) => out := WriteArray(v, depth, fmt);
    case Object(_) => out := WriteObject(v, depth, fmt);
  }

  /** print_array: the items are printed first, and put together then. */
  method WriteArray(v: Json, depth: nat, fmt: bool) returns (out: Bytes)
    requires v.Array? && Printable(v)
    ensures out == Print(v, depth, fmt)
    decreases v, 0
  {
    hide Print, PrintItems;
    PrintedArray(v, depth, fmt);
    var items := v.items;
    if items == [] {
      return [91, 93];
    }
    var entries: seq<Bytes> := [];
    var i := 0;
    while i < |items|
      invariant i <= |items| && |entries| == i
      invariant forall k :: 0 <= k < i ==> entries[k] == Print(items[k], depth + 1, fmt)
    {
      var ret := WriteValue(items[i], depth + 1, fmt);
      entries := entries + [ret];
      i := i + 1;
    }
    out := [91];
    i := 0;
    while i < |items|
      invariant i <= |items|
      invariant [91] + PrintItems(v, items, 0, depth + 1, fmt) == out + PrintItems(v, items, i, depth + 1, fmt)
    {
      PrintedItems(v, i, depth + 1, fmt);
      ghost var was, sep: Bytes := out, if i != |items| - 1 then [44] + (if fmt then [32] else []) else [];
      out := out + entries[i];
      if i != |items| - 1 {
        out := out + [44];
        if fmt {
          out := out + [32];
        }
      }
      assert out == was + entries[i] + sep;
      Reassociate(was, entries[i], sep, PrintItems(v, items, i + 1, depth + 1, fmt));
      i := i + 1;
    }
    PrintedItems(v, 0, depth + 1, fmt);
    assert out + [] == out;
    out := out + [93];
  }

  lemma Reassociate(a: Bytes, b: Bytes, c: Bytes, d: Bytes)
    ensures a + (b + c + d) == a + b + c + d
  {
  }

  /** One round of the last loop of print_object, without the comma. */
  method AppendMember(out0: Bytes, name: Bytes, entry: Bytes, depth: nat, fmt: bool) returns (out: Bytes)
    ensures out == out0 + ((if fmt then Repeat(9, depth) else []) + name + [58] + (if fmt then [9] else []) + entry)
  {
    out := out0;
    if fmt {
      out := out + Repeat(9, depth);
    }
    out := out + name;
    out := out + [58];
    if fmt {
      out := out + [9];
    }
    out := out + entry;
  }

  /** print_object: names and values are printed first, and put together then. */
  method WriteObject(v: Json, depth0: nat, fmt: bool) returns (out: Bytes)
    requires v.Object? && Printable(v)
    ensures out == Print(v, depth0, fmt)
    decreases v, 0
  {
    hide Print, PrintMembers, PrintString, Repeat, MemberText;
    PrintedObject(v, depth0, fmt);
    var ms := v.members;
    if ms == [] {
      out := [123];
      if fmt {
        out := out + [10];
        out := out + Repeat(9, if depth0 > 0 then depth0 - 1 else 0);
      }
      return out + [125];
    }
    var depth := depth0 + 1;
    var names: seq<Bytes>, entries: seq<Bytes> := [], [];
    var i := 0;
    while i < |ms|
      invariant i <= |ms| && |entries| == |names| == i
      invariant forall k :: 0 <= k < i ==> names[k] == PrintString(ms[k].name)
      invariant forall k :: 0 <= k < i ==> entries[k] == Print(ms[k].value, depth, fmt)
    {
      var str := WriteString(ms[i].name);
      names := names + [str];
      var ret := WriteValue(ms[i].value, depth, fmt);
      entries := entries + [ret];
      i := i + 1;
    }
    out := [123];
    if fmt {
      out := out + [10];
    }
    out := AppendMembers(v, out, names, entries, depth, fmt);
    if fmt {
      out := out + Repeat(9, depth - 1);
    }
    out := out + [125];
  }

  /** The last loop of print_object. */
  method AppendMembers(v: Json, out0: Bytes, names: seq<Bytes>, entries: seq<Bytes>, depth: nat, fmt: bool)
      returns (out: Bytes)
    requires v.Object? && Printable(v) && v.members != [] && |names| == |entries| == |v.members|
    requires forall k :: 0 <= k < |names| ==>
               names[k] == PrintString(v.members[k].name) && entries[k] == Print(v.members[k].value, depth, fmt)
    ensures out == out0 + PrintMembers(v, v.members, 0, depth, fmt)
  {
    hide Print, PrintMembers, Printable, Repeat, PrintString;
    var ms := v.members;
    out := out0;
    var i := 0;
    while i < |ms|
      invariant i <= |ms|
      invariant out0 + PrintMembers(v, ms, 0, depth, fmt) == out + PrintMembers(v, ms, i, depth, fmt)
    {
      PrintedMembers(v, i, depth, fmt);
      ghost var was, text := out, MemberText(v, i, depth, fmt);
      ghost var comma: Bytes, line: Bytes := if i != |ms| - 1 then [44] else [], if fmt then [10] else [];
      out := AppendMember(out, names[i], entries[i], depth, fmt);
      if i != |ms| - 1 {
        out := out + [44];
      }
      if fmt {
        out := out + [10];
      }
      assert out == was + text + comma + line;
      FourParts(was, text, comma, line, PrintMembers(v, ms, i + 1, depth, fmt));
      i := i + 1;
    }
    PrintedMembers(v, 0, depth, fmt);
    assert out + [] == out;
  }

  lemma FourParts(a: Bytes, b: Bytes, c: Bytes, d: Bytes, e: Bytes)
    ensures a + (b + c + d + e) == a + b + c + d + e
  {
  }

  /** The two forms of print, and the parser on what they wrote, with anything behind it that is no part of a number. */
  method PrintAndParse(v: Json, fmt: bool, rest: Bytes) returns (text: Bytes, r: Result<Json>)
    requires Printable(v) && (v.Number? ==> JsonAccept.NumberEnds(rest, 0))
    ensures r == Ok(v, |text|)
  {
    text := WriteValue(v, 0, fmt);
    var at := SkipSpace(text + rest, 0);
    JsonRoundTrip.RoundTrip(v, fmt, rest);
    r := ReadValue(text + rest, at);
  }
}
