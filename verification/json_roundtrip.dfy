/** What is printed is read back: the printer writes texts of the grammar, at any depth, formatted or not. */
module JsonRoundTrip {
  import opened Common
  import opened JsonText
  import opened JsonPlaces
  import opened JsonGrammar
  import opened JsonAccept
  import opened JsonValues

  // ---------- strings and numbers ----------

  /** How print_string_ptr writes a byte, as a character of the grammar. */
  function WrittenChar(c: Byte): Char {
    if c == 8 then Escape('b' as int)
    else if c == 9 then Escape('t' as int)
    else if c == 10 then Escape('n' as int)
    else if c == 12 then Escape('f' as int)
    else if c == 13 then Escape('r' as int)
    else if c == QUOTE || c == BACKSLASH then Escape(c)
    else if c < 32 then Code(c, [48, 48, SMALL[c / 16] as int, SMALL[c % 16] as int])
    else Plain(c)
  }

  lemma CharWritten(c: Byte)
    requires c != 0
    ensures ValidChar(WrittenChar(c)) && CharText(WrittenChar(c)) == Escaped(c) && CharBytes(WrittenChar(c)) == [c]
    ensures !WrittenChar(c).StrayHigh?
  {
    if c < 32 {
      ControlWritten(c);
      hide Spells, HexChar;
    }
  }

  lemma ControlWritten(c: Byte)
    requires c < 32
    ensures HexChar(c / 16) == SMALL[c / 16] as int && HexChar(c % 16) == SMALL[c % 16] as int
    ensures c > 0 ==> Spells([48, 48, SMALL[c / 16] as int, SMALL[c % 16] as int], c)
  {
    assert SMALL[0] == '0';
  }

  function WrittenChars(s: Bytes): seq<Char> { if s == [] then [] else [WrittenChar(s[0])] + WrittenChars(s[1..]) }

  lemma {:induction false} CharsWritten(s: Bytes)
    requires CString(s)
    ensures var cs := WrittenChars(s); ValidChars(cs) && CharsText(cs) == EscapedAll(s) && CharsBytes(cs) == s
  {
    hide WrittenChar, CharText, CharBytes, Escaped, ValidChar;
    if s != [] {
      var rest := WrittenChars(s[1..]);
      CharWritten(s[0]);
      CharsWritten(s[1..]);
      FirstOfConcat([WrittenChar(s[0])], rest);
      assert [WrittenChar(s[0])][1..] + rest == rest;
    }
  }

  lemma QuotedWritten(s: Bytes)
    requires CString(s)
    ensures ValidChars(WrittenChars(s)) && QuotedText(WrittenChars(s)) == PrintString(s)
    ensures CharsBytes(WrittenChars(s)) == s
  {
    hide CharsText, EscapedAll, CharsBytes, ValidChars;
    CharsWritten(s);
  }

  function WrittenNumber(x: real): Numeral
    requires IsInt(x)
  {
    var m: nat := if x.Floor < 0 then -x.Floor else x.Floor;
    Numeral(x.Floor < 0, m == 0, if m == 0 then [] else Decimal(m), [], NoExponent)
  }

  lemma {:induction false} DecimalIs(n: nat)
    ensures var s := Decimal(n); AllDigits(s) && (s[0] == 48 <==> n == 0) && Whole(s) == n
  {
    if n >= 10 {
      DecimalIs(n / 10);
    }
    var s := Decimal(n);
    assert s[|s| - 1] == 48 + n % 10 && s[..|s| - 1] == if n < 10 then [] else Decimal(n / 10);
  }

  lemma NumberWritten(x: real)
    requires IsInt(x)
    ensures var n := WrittenNumber(x); ValidNumeral(n) && NumeralText(n) == PrintNumber(x) && NumeralValue(n) == x
  {
    hide Decimal, Whole, Part, Pow10;
    var m: nat := if x.Floor < 0 then -x.Floor else x.Floor;
    DecimalIs(m);
    NoDigits();
    DecimalZero();
    NumberParts(WrittenNumber(x), m);
  }

  lemma NumberParts(n: Numeral, m: nat)
    requires n.part == [] && n.power.NoExponent? && AllDigits(n.whole) && Whole(n.whole) == m && ValidNumeral(n)
    ensures NumeralValue(n) == if n.minus then 0.0 - m as real else m as real
  {
    hide Whole, Pow10;
    NoDigits();
  }

  lemma NoDigits()
    ensures Whole([]) == 0 && Part([]) == 0.0 && Pow10(0) == 1.0
  {
  }

  lemma DecimalZero()
    ensures Decimal(0) == [48]
  {
  }

  // ---------- values ----------

  function Tabs(n: nat, fmt: bool): (s: Bytes)
    ensures Space(s)
  {
    if fmt then Repeat(9, n) else []
  }

  function Line(fmt: bool): (s: Bytes)
    ensures Space(s)
  {
    if fmt then [10] else []
  }

  /** The text of a value as it is printed. */
  function Written(v: Json, depth: nat, fmt: bool): Syntax
    requires Printable(v)
    decreases v, 0
  {
    match v
    case Null => NullWord
    case False => FalseWord
    case True => TrueWord
    case Number(x) => NumberText(WrittenNumber(x))
    case String(s) => Quoted(WrittenChars(s))
    case Array(items) => List([], WrittenItems(v, 0, depth + 1, fmt))
    case Object(ms) =>
      if ms == [] then Record(Line(fmt) + Tabs(if depth > 0 then depth - 1 else 0, fmt), NoMember)
      else Record(Line(fmt), WrittenMembers(v, 0, depth + 1, fmt))
  }

  /** The items from the `i`-th on: a space before each but the first. */
  function WrittenItems(v: Json, i: nat, depth: nat, fmt: bool): Items
    requires v.Array? && Printable(v) && i <= |v.items|
    decreases v, 0, |v.items| - i
  {
    if i == |v.items| then NoItem
    else Item(Gap(i, fmt), Written(v.items[i], depth, fmt), [], WrittenItems(v, i + 1, depth, fmt))
  }

  function Gap(i: nat, fmt: bool): (s: Bytes)
    ensures Space(s)
  {
    if i > 0 && fmt then [32] else []
  }

  /** The members from the `i`-th on: each on a line of its own, and so is the brace behind them. */
  function WrittenMembers(v: Json, i: nat, depth: nat, fmt: bool): Members
    requires v.Object? && Printable(v) && i <= |v.members| && depth > 0
    decreases v, 0, |v.members| - i
  {
    if i == |v.members| then NoMember
    else
      Named((if i > 0 then Line(fmt) else []) + Tabs(depth, fmt), WrittenChars(v.members[i].name), [], Tab(fmt),
            Written(v.members[i].value, depth, fmt),
            if i == |v.members| - 1 then Line(fmt) + Tabs(depth - 1, fmt) else [],
            WrittenMembers(v, i + 1, depth, fmt))
  }

  function Tab(fmt: bool): (s: Bytes)
    ensures Space(s)
  {
    if fmt then [9] else []
  }

  /** What is printed is a text of the grammar that stands for the value. */
  lemma {:induction false} ValueWritten(v: Json, depth: nat, fmt: bool)
    requires Printable(v)
    ensures var s := Written(v, depth, fmt);
            Valid(s) && Text(s) == Print(v, depth, fmt) && Value(s) == v && !s.Open? && (s.NumberText? <==> v.Number?)
    ensures Written(v, depth, fmt).NumberText? ==> Written(v, depth, fmt).n.power.NoExponent?
    decreases v, 1
  {
    hide PrintNumber, PrintString, NumeralText, NumeralValue, QuotedText, CharsText, ValidChars, CharsBytes,
         WrittenChars;
    hide ValidNumeral, Tabs, Line, WrittenItems, WrittenMembers, PrintItems, PrintMembers;
    match v
    case Null => Words();
    case False => Words();
    case True => Words();
    case Number(x) => NumberWritten(x);
    case String(s) => QuotedWritten(s);
    case Array(items) => ArrayWritten(v, depth, fmt);
    case Object(ms) => ObjectWritten(v, depth, fmt);
  }

  lemma {:induction false} ArrayWritten(v: Json, depth: nat, fmt: bool)
    requires v.Array? && Printable(v)
    ensures var s := Written(v, depth, fmt); Valid(s) && Text(s) == Print(v, depth, fmt) && Value(s) == v
    decreases v, 0, |v.items| + 1
  {
    hide *;
    ArrayParts(v, depth, fmt);
    if v.items != [] {
      ItemsWritten(v, 0, depth + 1, fmt);
      assert v.items[0..] == v.items;
    }
    var items := WrittenItems(v, 0, depth + 1, fmt);
    ListText(items);
    assert [] + PrintItems(v, v.items, 0, depth + 1, fmt) == PrintItems(v, v.items, 0, depth + 1, fmt);
  }

  lemma ListText(items: Items)
    requires ValidItems(items)
    ensures var s := List([], items);
            && Valid(s) && Value(s) == Array(ItemsValue(items))
            && Text(s) == [91] + (if items.NoItem? then [93] else ItemsText(items))
            && (items.NoItem? ==> ItemsValue(items) == [])
  {
    hide ItemsText, ValidItems;
  }

  lemma ArrayParts(v: Json, depth: nat, fmt: bool)
    requires v.Array? && Printable(v)
    ensures Written(v, depth, fmt) == List([], WrittenItems(v, 0, depth + 1, fmt))
    ensures Print(v, depth, fmt) == [91] + PrintItems(v, v.items, 0, depth + 1, fmt) + [93]
    ensures Gap(0, fmt) == []
    ensures if v.items == [] then WrittenItems(v, 0, depth + 1, fmt) == NoItem && ValidItems(NoItem)
                                  && PrintItems(v, v.items, 0, depth + 1, fmt) == []
            else WrittenItems(v, 0, depth + 1, fmt).Item?
  {
  }

  lemma {:induction false} ItemsWritten(v: Json, i: nat, depth: nat, fmt: bool)
    requires v.Array? && Printable(v) && i < |v.items|
    ensures var c := WrittenItems(v, i, depth, fmt);
            && ValidItems(c) && ItemsValue(c) == v.items[i..]
            && ItemsText(c) == Gap(i, fmt) + PrintItems(v, v.items, i, depth, fmt) + [93]
    decreases v, 0, |v.items| - i
  {
    hide *;
    ItemParts(v, i, depth, fmt);
    ValueWritten(v.items[i], depth, fmt);
    var c := WrittenItems(v, i, depth, fmt);
    if i + 1 < |v.items| {
      ItemsWritten(v, i + 1, depth, fmt);
    }
    ItemText(c);
    ItemIs(c);
    assert v.items[i..] == [v.items[i]] + v.items[i + 1..];
  }

  lemma ItemText(c: Items)
    requires c.Item? && Space(c.before) && c.after == [] && Valid(c.value) && !c.value.Open?
    requires c.rest.Item? ==> ValidItems(c.rest)
    ensures ValidItems(c)
    ensures ItemsText(c) == c.before + Text(c.value) + (if c.rest.NoItem? then [93] else [44] + ItemsText(c.rest))
  {
    hide Text, Valid;
  }

  lemma ItemParts(v: Json, i: nat, depth: nat, fmt: bool)
    requires v.Array? && Printable(v) && i < |v.items|
    ensures Printable(v.items[i])
    ensures var c := WrittenItems(v, i, depth, fmt);
            && c == Item(Gap(i, fmt), Written(v.items[i], depth, fmt), [], WrittenItems(v, i + 1, depth, fmt))
            && (c.rest.NoItem? <==> i + 1 == |v.items|)
    ensures if i + 1 == |v.items| then PrintItems(v, v.items, i, depth, fmt) == Print(v.items[i], depth, fmt)
            else PrintItems(v, v.items, i, depth, fmt) ==
                 Print(v.items[i], depth, fmt) + ([44] + Gap(i + 1, fmt)) + PrintItems(v, v.items, i + 1, depth, fmt)
  {
    assert [44] + [] == [44];
  }

  lemma {:induction false} ObjectWritten(v: Json, depth: nat, fmt: bool)
    requires v.Object? && Printable(v)
    ensures var s := Written(v, depth, fmt); Valid(s) && Text(s) == Print(v, depth, fmt) && Value(s) == v
    decreases v, 0, |v.members| + 1
  {
    hide *;
    if v.members == [] {
      EmptyWritten(v, depth, fmt);
    } else {
      ObjectParts(v, depth, fmt);
      MembersWritten(v, 0, depth + 1, fmt);
      assert v.members[0..] == v.members;
      RecordText(Line(fmt), WrittenMembers(v, 0, depth + 1, fmt));
    }
  }

  lemma EmptyWritten(v: Json, depth: nat, fmt: bool)
    requires v == Object([])
    ensures var s := Written(v, depth, fmt); Valid(s) && Text(s) == Print(v, depth, fmt) && Value(s) == v
  {
  }

  lemma RecordText(ws: Bytes, ms: Members)
    requires Space(ws) && ValidMembers(ms) && ms.Named?
    ensures var s := Record(ws, ms);
            Valid(s) && Value(s) == Object(MembersValue(ms)) && Text(s) == [123] + ws + MembersText(ms)
  {
    hide MembersText, ValidMembers, MembersValue;
  }

  lemma ObjectParts(v: Json, depth: nat, fmt: bool)
    requires v.Object? && Printable(v) && v.members != []
    ensures Written(v, depth, fmt) == Record(Line(fmt), WrittenMembers(v, 0, depth + 1, fmt))
    ensures WrittenMembers(v, 0, depth + 1, fmt).Named?
    ensures Print(v, depth, fmt) ==
            [123] + Line(fmt) + (PrintMembers(v, v.members, 0, depth + 1, fmt) + Tabs(depth, fmt) + [125])
  {
    PrintedWith(v, depth, fmt);
    hide Print, PrintMembers, Tabs, Line;
    var a, b, c := [123] + Line(fmt), PrintMembers(v, v.members, 0, depth + 1, fmt), Tabs(depth, fmt);
    Associates(a, b, c);
    Associates(a, b + c, [125]);
  }

  lemma PrintedWith(v: Json, depth: nat, fmt: bool)
    requires v.Object? && Printable(v) && v.members != []
    ensures Print(v, depth, fmt) ==
            [123] + Line(fmt) + PrintMembers(v, v.members, 0, depth + 1, fmt) + Tabs(depth, fmt) + [125]
  {
    hide PrintMembers;
  }

  lemma {:induction false} MembersWritten(v: Json, i: nat, depth: nat, fmt: bool)
    requires v.Object? && Printable(v) && i < |v.members| && depth > 0
    ensures var c := WrittenMembers(v, i, depth, fmt);
            && ValidMembers(c) && MembersValue(c) == v.members[i..]
            && MembersText(c) ==
                 (if i > 0 then Line(fmt) else []) +
                   (PrintMembers(v, v.members, i, depth, fmt) + Tabs(depth - 1, fmt) + [125])
    decreases v, 0, |v.members| - i
  {
    hide *;
    MemberParts(v, i, depth, fmt);
    var m := v.members[i];
    var c := WrittenMembers(v, i, depth, fmt);
    ValueWritten(m.value, depth, fmt);
    QuotedWritten(m.name);
    if i + 1 < |v.members| {
      MembersWritten(v, i + 1, depth, fmt);
    }
    MemberText(c);
    MemberIs(c);
    PrintedMember(v, i, depth, fmt);
    assert v.members[i..] == [v.members[i]] + v.members[i + 1..];
    var x := QuotedText(c.name) + [58] + c.ws + Text(c.value);
    var first := if i > 0 then Line(fmt) else [];
    var pm := PrintMembers(v, v.members, i, depth, fmt);
    if i + 1 == |v.members| {
      JoinLast(MembersText(c), pm, first, Tabs(depth, fmt), x, Line(fmt), Tabs(depth - 1, fmt));
    } else {
      var more := PrintMembers(v, v.members, i + 1, depth, fmt);
      JoinMore(MembersText(c), pm, first, Tabs(depth, fmt), x, Line(fmt), more, MembersText(c.rest),
               Tabs(depth - 1, fmt));
    }
  }

  lemma JoinLast(text: Bytes, printed: Bytes, first: Bytes, tabs: Bytes, x: Bytes, line: Bytes, last: Bytes)
    requires text == (first + tabs) + x + ((line + last) + [125]) && printed == tabs + x + line
    ensures text == first + (printed + last + [125])
  {
  }

  lemma JoinMore(text: Bytes, printed: Bytes, first: Bytes, tabs: Bytes, x: Bytes, line: Bytes, more: Bytes,
                 rest: Bytes,
                 last: Bytes)
    requires text == (first + tabs) + x + ([] + ([44] + rest)) && rest == line + (more + last + [125])
    requires printed == tabs + x + [44] + (line + more)
    ensures text == first + (printed + last + [125])
  {
  }

  lemma MemberText(c: Members)
    requires c.Named? && Space(c.before) && ValidChars(c.name) && c.between == [] && Space(c.ws) && Valid(c.value)
    requires !c.value.Open? && Space(c.after) && (c.rest.Named? ==> ValidMembers(c.rest))
    ensures ValidMembers(c)
    ensures MembersText(c) ==
            c.before + (QuotedText(c.name) + [58] + c.ws + Text(c.value))
            + (c.after + if c.rest.NoMember? then [125] else [44] + MembersText(c.rest))
  {
    hide Text, Valid, ValidChars, QuotedText;
  }

  lemma MemberParts(v: Json, i: nat, depth: nat, fmt: bool)
    requires v.Object? && Printable(v) && i < |v.members| && depth > 0
    ensures Printable(v.members[i].value) && CString(v.members[i].name)
    ensures var c := WrittenMembers(v, i, depth, fmt);
            && c == Named((if i > 0 then Line(fmt) else []) + Tabs(depth, fmt), WrittenChars(v.members[i].name), [],
                          Tab(fmt), Written(v.members[i].value, depth, fmt),
                          if i == |v.members| - 1 then Line(fmt) + Tabs(depth - 1, fmt) else [],
                          WrittenMembers(v, i + 1, depth, fmt))
            && (c.rest.NoMember? <==> i + 1 == |v.members|)
            && Space(c.before) && Space(c.ws) && Space(c.after)
  {
    hide Written, WrittenChars;
  }

  lemma PrintedMember(v: Json, i: nat, depth: nat, fmt: bool)
    requires v.Object? && Printable(v) && i < |v.members|
    ensures Printable(v.members[i].value)
    ensures var x := Tabs(depth, fmt) + (PrintString(v.members[i].name) + [58] + Tab(fmt)
                                         + Print(v.members[i].value, depth, fmt));
            PrintMembers(v, v.members, i, depth, fmt) ==
            if i + 1 == |v.members| then x + Line(fmt)
            else x + [44] + (Line(fmt) + PrintMembers(v, v.members, i + 1, depth, fmt))
  {
    hide Print, PrintString, Printable;
    PrintedParts(v, i, depth, fmt);
    var x, y := PrintString(v.members[i].name), Print(v.members[i].value, depth, fmt);
    hide PrintMembers, Tabs, Line, Tab;
    var a, b, c := Tabs(depth, fmt), [58], Tab(fmt);
    assert a + x + b + c + y == a + (x + b + c + y);
    if i + 1 < |v.members| {
      Associates(a + x + b + c + y + [44], Line(fmt), PrintMembers(v, v.members, i + 1, depth, fmt));
    }
  }

  lemma PrintedParts(v: Json, i: nat, depth: nat, fmt: bool)
    requires v.Object? && Printable(v) && i < |v.members|
    ensures Printable(v.members[i].value)
    ensures var x := Tabs(depth, fmt) + PrintString(v.members[i].name) + [58] + Tab(fmt)
                     + Print(v.members[i].value, depth, fmt);
            PrintMembers(v, v.members, i, depth, fmt) ==
            if i + 1 == |v.members| then x + Line(fmt)
            else x + [44] + Line(fmt) + PrintMembers(v, v.members, i + 1, depth, fmt)
  {
    hide Print, PrintString;
    if i + 1 == |v.members| {
      assert PrintMembers(v, v.members, i + 1, depth, fmt) == [];
    }
  }

  // ---------- the round trip ----------

  /**
   * The text of a tree is read as the tree, up to its end, whatever follows; only behind a number
   * there must not be more of a number.
   */
  lemma ValueRead(t: Bytes, i: nat, v: Json, depth: nat, fmt: bool)
    requires Printable(v) && StartsWith(t, i, Print(v, depth, fmt))
    requires v.Number? ==> NumberEnds(t, i + |Print(v, depth, fmt)|)
    ensures i < |t| && Starts(Ch(t, i)) && ParseValue(t, i) == Ok(v, i + |Print(v, depth, fmt)|)
  {
    hide StartsWith, ParseValue, Print, Text, Value, Valid, Written, NumberEnds;
    ValueWritten(v, depth, fmt);
    JsonValues.ValueRead(t, i, Written(v, depth, fmt));
  }

  /** Round trip: cJSON_Parse reads what cJSON_Print or cJSON_PrintUnformatted wrote, and stops at its end. */
  lemma RoundTrip(v: Json, fmt: bool, rest: Bytes)
    requires Printable(v) && (v.Number? ==> NumberEnds(rest, 0))
    ensures var s := Print(v, 0, fmt); Parse(s + rest) == Ok(v, |s|)
  {
    var s := Print(v, 0, fmt);
    var t := s + rest;
    assert t[0..|s|] == s;
    assert Ch(t, |s|) == Ch(rest, 0);
    ValueRead(t, 0, v, 0, fmt);
    NoSkip(t, 0);
  }
}
