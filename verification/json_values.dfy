/** The parser on values: the texts of the grammar, and only those. */
module JsonValues {
  import opened Common
  import opened JsonText
  import opened JsonPlaces
  import opened JsonGrammar
  import opened JsonAccept

  /** What must come after a value: nothing that could belong to a number, and the end of the text after a
      string without its closing quote. */
  predicate Follows(s: Syntax, t: Bytes, e: nat) {
    && (s.NumberText? ==> Finished(s.n, t, e))
    && (s.Open? ==> Ch(t, e) == 0)
  }

  /** No value begins with white space, or with what would be taken for the end of a list. */
  predicate Starts(c: Byte) { c > 32 && c != 93 && c != 125 && c != 44 && c != 58 }

  lemma StartsNoSkip(t: Bytes, i: nat)
    requires i <= |t| && Starts(Ch(t, i))
    ensures Skip(t, i) == i
  {
  }

  /** White space, a comma, a colon or a bracket ends a number. */
  predicate Separates(c: Byte) { 0 < c <= 32 || c == 44 || c == 93 || c == 125 }

  lemma SeparatorFollows(s: Syntax, t: Bytes, e: nat)
    requires Separates(Ch(t, e)) && !s.Open?
    ensures Follows(s, t, e)
  {
  }

  // ---------- one step of the parser ----------

  lemma ArrayStep(t: Bytes, i: nat)
    requires i < |t| && Ch(t, i) == 91
    ensures var j := Skip(t, i + 1);
            ParseValue(t, i) == if Ch(t, j) == 93 then Ok(Array([]), j + 1)
                                else match ParseItems(t, j)
                                     case Ok(items, k) => Ok(Array(items), k)
                                     case Fail => Fail
                                     case Undefined => Undefined
  {
    WordStarts(t, i);
  }

  lemma ObjectStep(t: Bytes, i: nat)
    requires i < |t| && Ch(t, i) == 123
    ensures var j := Skip(t, i + 1);
            ParseValue(t, i) == if Ch(t, j) == 125 then Ok(Object([]), j + 1)
                                else match ParseMembers(t, j)
                                     case Ok(ms, k) => Ok(Object(ms), k)
                                     case Fail => Fail
                                     case Undefined => Undefined
  {
    WordStarts(t, i);
  }

  lemma StringStep(t: Bytes, i: nat)
    requires i < |t| && Ch(t, i) == QUOTE
    ensures ParseValue(t, i) == match ParseString(t, i)
                                case Ok(s, j) => Ok(String(s), j)
                                case Fail => Fail
                                case Undefined => Undefined
  {
    WordStarts(t, i);
    hide ParseString;
  }

  lemma NumberStep(t: Bytes, i: nat)
    requires i < |t| && (Ch(t, i) == 45 || Digit(Ch(t, i)))
    ensures ParseValue(t, i) == ParseNumber(t, i)
  {
    WordStarts(t, i);
    hide ParseNumber;
  }

  lemma WordStep(t: Bytes, i: nat)
    requires i <= |t|
    ensures StartsWith(t, i, NULL_TEXT) ==> ParseValue(t, i) == Ok(Null, i + 4)
    ensures StartsWith(t, i, FALSE_TEXT) ==> ParseValue(t, i) == Ok(False, i + 5)
    ensures StartsWith(t, i, TRUE_TEXT) ==> ParseValue(t, i) == Ok(True, i + 4)
  {
    WordStarts(t, i);
  }

  /** Nothing else is a value. */
  lemma OtherStep(t: Bytes, i: nat)
    requires i <= |t| && ParseValue(t, i).Ok?
    ensures StartsWith(t, i, NULL_TEXT) || StartsWith(t, i, FALSE_TEXT) || StartsWith(t, i, TRUE_TEXT)
            || (i < |t|
                && (Ch(t, i) == QUOTE || Ch(t, i) == 45 || Digit(Ch(t, i)) || Ch(t, i) == 91 || Ch(t, i) == 123))
  {
  }

  lemma ItemsStep(t: Bytes, i: nat)
    requires i <= |t|
    ensures ParseItems(t, i) ==
            match ParseValue(t, Skip(t, i))
            case Ok(v, j) =>
              var k := Skip(t, j);
              if Ch(t, k) == 44 then Prepend([v], ParseItems(t, k + 1))
              else if Ch(t, k) == 93 then Ok([v], k + 1)
              else Fail
            case Fail => Fail
            case Undefined => Undefined
  {
  }

  lemma MemberStep(t: Bytes, i: nat)
    requires i <= |t|
    ensures ParseMember(t, i) ==
            match ParseString(t, Skip(t, i))
            case Ok(name, j) =>
              var k := Skip(t, j);
              if Ch(t, k) != 58 then Fail
              else
                (match ParseValue(t, Skip(t, k + 1))
                 case Ok(v, e) => Ok(Member(name, v), e)
                 case Fail => Fail
                 case Undefined => Undefined)
            case Fail => Fail
            case Undefined => Undefined
  {
    hide ParseString;
  }

  lemma MembersStep(t: Bytes, i: nat)
    requires i <= |t|
    ensures ParseMembers(t, i) ==
            match ParseMember(t, i)
            case Ok(m, j) =>
              var k := Skip(t, j);
              if Ch(t, k) == 44 then Prepend([m], ParseMembers(t, k + 1))
              else if Ch(t, k) == 125 then Ok([m], k + 1)
              else Fail
            case Fail => Fail
            case Undefined => Undefined
  {
    hide ParseMember;
  }

  // ---------- the texts of the grammar are read ----------

  lemma {:induction false} ValueRead(t: Bytes, i: nat, s: Syntax)
    requires Valid(s) && StartsWith(t, i, Text(s)) && Follows(s, t, i + |Text(s)|)
    ensures i < |t| && Starts(Ch(t, i)) && ParseValue(t, i) == Ok(Value(s), i + |Text(s)|)
    decreases s
  {
    hide StartsWith, ParseValue, ParseString, ParseNumber, ParseItems, ParseMembers, NumeralText, NumeralValue;
    hide QuotedText, CharsText, CharsBytes, ValidChars, ValidNumeral, Finished, ItemsText, MembersText;
    Words();
    match s
    case NullWord =>
      StartsWithin(t, i, NULL_TEXT);
      WordStarts(t, i);
      WordStep(t, i);
    case FalseWord =>
      StartsWithin(t, i, FALSE_TEXT);
      WordStarts(t, i);
      WordStep(t, i);
    case TrueWord =>
      StartsWithin(t, i, TRUE_TEXT);
      WordStarts(t, i);
      WordStep(t, i);
    case NumberText(n) =>
      NumeralRead(t, i, n);
      NumberStep(t, i);
    case Quoted(cs) =>
      QuotedRead(t, i, cs);
      StringStep(t, i);
    case Open(cs) =>
      OpenRead(t, i, cs);
      StringStep(t, i);
    case List(ws, items) =>
      ListRead(t, i, ws, items);
    case Record(ws, ms) =>
      RecordRead(t, i, ws, ms);
  }

  lemma {:induction false} ListRead(t: Bytes, i: nat, ws: Bytes, items: Items)
    requires Valid(List(ws, items)) && StartsWith(t, i, Text(List(ws, items)))
    ensures i < |t| && Ch(t, i) == 91
    ensures ParseValue(t, i) == Ok(Array(ItemsValue(items)), i + |Text(List(ws, items))|)
    decreases items, 1
  {
    hide StartsWith, ParseValue, ParseItems, ItemsText, Skip;
    var rest: Bytes := if items.NoItem? then [93] else ItemsText(items);
    Starts3(t, i, [91], ws, rest);
    StartsFirst(t, i, [91]);
    ArrayStep(t, i);
    var p := i + 1 + |ws|;
    StartsWithin(t, i + 1, ws);
    SkipAll(t, i + 1, ws);
    if items.NoItem? {
      StartsFirst(t, p, [93]);
      NoSkip(t, p);
    } else {
      SkipTwice(t, i + 1);
      ItemsRead(t, Skip(t, i + 1), p, items);
    }
  }

  lemma {:induction false} ItemsRead(t: Bytes, i: nat, p: nat, c: Items)
    requires ValidItems(c) && c.Item? && i <= |t| && p <= |t| && Skip(t, i) == Skip(t, p)
    requires StartsWith(t, p, ItemsText(c))
    ensures ParseItems(t, i) == Ok(ItemsValue(c), p + |ItemsText(c)|)
    ensures Ch(t, Skip(t, p)) != 93
    decreases c, 0
  {
    hide *;
    var q, e, k := ItemAt(t, p, c);
    ValueRead(t, q, c.value);
    StartsNoSkip(t, q);
    ItemsStep(t, i);
    ItemIs(c);
    NoSkip(t, k);
    NotClosing(t, q);
    if c.rest.Item? {
      ItemsRead(t, k + 1, k + 1, c.rest);
    }
  }

  lemma NotClosing(t: Bytes, i: nat)
    requires Starts(Ch(t, i))
    ensures Ch(t, i) != 93 && Ch(t, i) != 125
  {
  }

  lemma ItemIs(c: Items)
    requires ValidItems(c) && c.Item?
    ensures ItemsValue(c) == [Value(c.value)] + ItemsValue(c.rest)
    ensures c.rest.NoItem? ==> ItemsValue(c) == [Value(c.value)]
  {
    hide Value, Valid;
  }

  /** An item in its place: where it begins, where it ends, and where the comma or bracket after it is. */
  lemma ItemAt(t: Bytes, p: nat, c: Items) returns (q: nat, e: nat, k: nat)
    requires ValidItems(c) && c.Item? && p <= |t| && StartsWith(t, p, ItemsText(c))
    ensures q <= e <= k < |t| && e == q + |Text(c.value)| && StartsWith(t, q, Text(c.value)) && Valid(c.value)
    ensures Skip(t, p) == Skip(t, q) && Skip(t, e) == Skip(t, k) && Follows(c.value, t, e) && ValidItems(c.rest)
    ensures if c.rest.NoItem? then Ch(t, k) == 93 && p + |ItemsText(c)| == k + 1
            else Ch(t, k) == 44 && StartsWith(t, k + 1, ItemsText(c.rest))
                 && p + |ItemsText(c)| == k + 1 + |ItemsText(c.rest)|
  {
    hide StartsWith, Text, Skip, Valid;
    var last: Bytes := if c.rest.NoItem? then [93] else [44] + ItemsText(c.rest);
    q := p + |c.before|;
    e := q + |Text(c.value)|;
    k := e + |c.after|;
    Starts4(t, p, c.before, Text(c.value), c.after, last);
    StartsFirst(t, k, last);
    if c.rest.Item? {
      StartsConcat(t, k, [44], ItemsText(c.rest));
    }
    SkipAll(t, p, c.before);
    SkipAll(t, e, c.after);
    if c.after != [] {
      StartsFirst(t, e, c.after);
    }
    SeparatorFollows(c.value, t, e);
  }

  lemma {:induction false} RecordRead(t: Bytes, i: nat, ws: Bytes, ms: Members)
    requires Valid(Record(ws, ms)) && StartsWith(t, i, Text(Record(ws, ms)))
    ensures i < |t| && Ch(t, i) == 123
    ensures ParseValue(t, i) == Ok(Object(MembersValue(ms)), i + |Text(Record(ws, ms))|)
    decreases ms, 1
  {
    hide StartsWith, ParseValue, ParseMembers, MembersText, Skip;
    var rest: Bytes := if ms.NoMember? then [125] else MembersText(ms);
    Starts3(t, i, [123], ws, rest);
    StartsFirst(t, i, [123]);
    ObjectStep(t, i);
    var p := i + 1 + |ws|;
    StartsWithin(t, i + 1, ws);
    SkipAll(t, i + 1, ws);
    if ms.NoMember? {
      StartsFirst(t, p, [125]);
      NoSkip(t, p);
    } else {
      SkipTwice(t, i + 1);
      MembersRead(t, Skip(t, i + 1), p, ms);
    }
  }

  lemma {:induction false} MembersRead(t: Bytes, i: nat, p: nat, c: Members)
    requires ValidMembers(c) && c.Named? && i <= |t| && p <= |t| && Skip(t, i) == Skip(t, p)
    requires StartsWith(t, p, MembersText(c))
    ensures ParseMembers(t, i) == Ok(MembersValue(c), p + |MembersText(c)|)
    ensures Ch(t, Skip(t, p)) != 125
    decreases c, 0
  {
    hide *;
    var m := NameAt(t, p, c);
    var q, e, k := MemberAt(t, m + 1, c);
    ValueRead(t, q, c.value);
    StartsNoSkip(t, q);
    MemberStep(t, i);
    MembersStep(t, i);
    MemberIs(c);
    NoSkip(t, k);
    if c.rest.Named? {
      MembersRead(t, k + 1, k + 1, c.rest);
    }
  }

  lemma MemberIs(c: Members)
    requires ValidMembers(c) && c.Named?
    ensures ValidChars(c.name) && Valid(c.value) && ValidMembers(c.rest)
    ensures MembersValue(c) == [Member(CharsBytes(c.name), Value(c.value))] + MembersValue(c.rest)
    ensures c.rest.NoMember? ==> MembersValue(c) == [Member(CharsBytes(c.name), Value(c.value))]
  {
    hide Value, Valid, ValidChars, CharsBytes;
  }

  /** The name of a member in its place, and where the colon after it is. */
  lemma NameAt(t: Bytes, p: nat, c: Members) returns (m: nat)
    requires ValidMembers(c) && c.Named? && p <= |t| && StartsWith(t, p, MembersText(c))
    ensures ValidChars(c.name) && ParseString(t, Skip(t, p)).Ok? && Ch(t, Skip(t, p)) != 125
    ensures ParseString(t, Skip(t, p)).value == CharsBytes(c.name)
    ensures m < |t| && Skip(t, ParseString(t, Skip(t, p)).end) == m && Ch(t, m) == 58
    ensures StartsWith(t, m + 1, MemberTail(c)) && p + |MembersText(c)| == m + 1 + |MemberTail(c)|
  {
    hide StartsWith, QuotedText, ValidChars, CharsBytes, ParseString, MemberTail, Skip, Valid;
    MembersTextIs(c);
    hide MembersText;
    StartsConcat(t, p, c.before + QuotedText(c.name) + c.between + [58], MemberTail(c));
    Starts4(t, p, c.before, QuotedText(c.name), c.between, [58]);
    var q := p + |c.before|;
    var e := q + |QuotedText(c.name)|;
    m := e + |c.between|;
    SkipAll(t, p, c.before);
    QuotedRead(t, q, c.name);
    NoSkip(t, q);
    SkipAll(t, e, c.between);
    StartsFirst(t, m, [58]);
    NoSkip(t, m);
  }

  /** A member from its colon on. */
  function MemberTail(c: Members): Bytes
    requires c.Named?
  {
    c.ws + Text(c.value) + c.after + (if c.rest.NoMember? then [125] else [44] + MembersText(c.rest))
  }

  lemma MembersTextIs(c: Members)
    requires c.Named?
    ensures MembersText(c) == (c.before + QuotedText(c.name) + c.between + [58]) + MemberTail(c)
  {
    hide Text, QuotedText;
  }

  lemma MemberAt(t: Bytes, p: nat, c: Members) returns (q: nat, e: nat, k: nat)
    requires ValidMembers(c) && c.Named? && p <= |t| && StartsWith(t, p, MemberTail(c))
    ensures q <= e <= k < |t| && e == q + |Text(c.value)| && StartsWith(t, q, Text(c.value)) && Valid(c.value)
    ensures Skip(t, p) == Skip(t, q) && Skip(t, e) == Skip(t, k) && Follows(c.value, t, e) && ValidMembers(c.rest)
    ensures if c.rest.NoMember? then Ch(t, k) == 125 && p + |MemberTail(c)| == k + 1
            else Ch(t, k) == 44 && StartsWith(t, k + 1, MembersText(c.rest))
                 && p + |MemberTail(c)| == k + 1 + |MembersText(c.rest)|
  {
    hide StartsWith, Text, Skip, Valid, ValidChars;
    var last: Bytes := if c.rest.NoMember? then [125] else [44] + MembersText(c.rest);
    q := p + |c.ws|;
    e := q + |Text(c.value)|;
    k := e + |c.after|;
    Starts4(t, p, c.ws, Text(c.value), c.after, last);
    StartsFirst(t, k, last);
    if c.rest.Named? {
      StartsConcat(t, k, [44], MembersText(c.rest));
    }
    SkipAll(t, p, c.ws);
    SkipAll(t, e, c.after);
    if c.after != [] {
      StartsFirst(t, e, c.after);
    }
    SeparatorFollows(c.value, t, e);
  }

  // ---------- and there are no others ----------

  lemma {:induction false} ValueFound(t: Bytes, i: nat) returns (s: Syntax)
    requires i <= |t| && ParseValue(t, i).Ok?
    ensures Valid(s) && StartsWith(t, i, Text(s)) && (s.Open? ==> Ch(t, i + |Text(s)|) == 0)
    ensures ParseValue(t, i) == Ok(Value(s), i + |Text(s)|)
    decreases |t| - i, 0
  {
    hide StartsWith, ParseValue, ParseString, ParseNumber, ParseItems, ParseMembers, NumeralText, NumeralValue;
    hide CharsText, CharsBytes, ValidChars, ValidNumeral, ItemsText, MembersText, Skip;
    Words();
    WordStep(t, i);
    OtherStep(t, i);
    if StartsWith(t, i, NULL_TEXT) {
      s := NullWord;
    } else if StartsWith(t, i, FALSE_TEXT) {
      s := FalseWord;
    } else if StartsWith(t, i, TRUE_TEXT) {
      s := TrueWord;
    } else if Ch(t, i) == QUOTE {
      StringStep(t, i);
      var cs := StringFound(t, i);
      s := if StartsWith(t, i, QuotedText(cs)) && ParseString(t, i).end == i + |QuotedText(cs)| then Quoted(cs)
           else Open(cs);
    } else if Ch(t, i) == 45 || Digit(Ch(t, i)) {
      NumberStep(t, i);
      var n := NumeralFound(t, i);
      s := NumberText(n);
    } else if Ch(t, i) == 91 {
      s := ListFound(t, i);
    } else {
      s := RecordFound(t, i);
    }
  }

  /** White space, up to what is not skipped. */
  lemma SpaceFound(t: Bytes, i: nat) returns (w: Bytes)
    requires i <= |t|
    ensures Space(w) && StartsWith(t, i, w) && i + |w| == Skip(t, i)
  {
    SkipIs(t, i);
    w := t[i..Skip(t, i)];
  }

  lemma {:induction false} ListFound(t: Bytes, i: nat) returns (s: Syntax)
    requires i < |t| && Ch(t, i) == 91 && ParseValue(t, i).Ok?
    ensures s.List? && Valid(s) && StartsWith(t, i, Text(s)) && ParseValue(t, i) == Ok(Value(s), i + |Text(s)|)
    decreases |t| - i - 1, 2
  {
    hide *;
    ArrayStep(t, i);
    NotOpen(t, i);
    var j := Skip(t, i + 1);
    var ws := SpaceFound(t, i + 1);
    var items := NoItem;
    if Ch(t, j) != 93 {
      items := ItemsFound(t, j);
    }
    s := List(ws, items);
    ListPut(t, i, ws, items);
  }

  lemma ListPut(t: Bytes, i: nat, ws: Bytes, items: Items)
    requires i < |t| && Ch(t, i) == 91 && Space(ws) && StartsWith(t, i + 1, ws) && ValidItems(items)
    requires if items.NoItem? then Ch(t, i + 1 + |ws|) == 93 else StartsWith(t, i + 1 + |ws|, ItemsText(items))
    ensures var s := List(ws, items);
            && Valid(s) && StartsWith(t, i, Text(s)) && Value(s) == Array(ItemsValue(items))
            && |Text(s)| == 1 + |ws| + (if items.NoItem? then 1 else |ItemsText(items)|)
            && (items.NoItem? ==> ItemsValue(items) == [])
  {
    hide StartsWith, ItemsText, ValidItems;
    var last: Bytes := if items.NoItem? then [93] else ItemsText(items);
    StartsOne(t, i, 91);
    StartsOne(t, i + 1 + |ws|, 93);
    StartsConcat(t, i, [91], ws);
    StartsConcat(t, i, [91] + ws, last);
  }

  lemma {:induction false} ItemsFound(t: Bytes, i: nat) returns (c: Items)
    requires i <= |t| && ParseItems(t, i).Ok?
    ensures c.Item? && ValidItems(c) && StartsWith(t, i, ItemsText(c))
    ensures ParseItems(t, i) == Ok(ItemsValue(c), i + |ItemsText(c)|)
    decreases |t| - i, 1
  {
    hide *;
    ItemsStep(t, i);
    var before := SpaceFound(t, i);
    var q := Skip(t, i);
    var v := ValueFound(t, q);
    var e := q + |Text(v)|;
    StartsWithin(t, q, Text(v));
    var after := SpaceFound(t, e);
    var k := Skip(t, e);
    NotOpen(t, e);
    var rest := NoItem;
    CommaWithin(t, k);
    if Ch(t, k) == 44 {
      rest := ItemsFound(t, k + 1);
    }
    c := Item(before, v, after, rest);
    ItemPut(t, i, c);
    ItemIs(c);
  }

  lemma NotOpen(t: Bytes, e: nat)
    requires e <= |t|
    ensures Ch(t, e) == 0 ==> Skip(t, e) == e
    ensures ValidItems(NoItem) && ValidMembers(NoMember)
  {
  }

  lemma CommaWithin(t: Bytes, k: nat)
    ensures Ch(t, k) != 0 ==> k < |t|
  {
  }

  lemma ItemPut(t: Bytes, p: nat, c: Items)
    requires c.Item? && Space(c.before) && Space(c.after) && Valid(c.value) && !c.value.Open? && ValidItems(c.rest)
    requires StartsWith(t, p, c.before) && StartsWith(t, p + |c.before|, Text(c.value))
    requires StartsWith(t, p + |c.before| + |Text(c.value)|, c.after)
    requires var k := p + |c.before| + |Text(c.value)| + |c.after|;
             if c.rest.NoItem? then Ch(t, k) == 93 else Ch(t, k) == 44 && StartsWith(t, k + 1, ItemsText(c.rest))
    ensures ValidItems(c) && StartsWith(t, p, ItemsText(c))
    ensures |ItemsText(c)| == |c.before| + |Text(c.value)| + |c.after|
                              + (if c.rest.NoItem? then 1 else 1 + |ItemsText(c.rest)|)
  {
    hide *;
    var k := p + |c.before| + |Text(c.value)| + |c.after|;
    var last: Bytes := if c.rest.NoItem? then [93] else [44] + ItemsText(c.rest);
    StartsOne(t, k, 93);
    StartsOne(t, k, 44);
    StartsConcat(t, k, [44], ItemsText(c.rest));
    StartsConcat(t, p, c.before, Text(c.value));
    StartsConcat(t, p, c.before + Text(c.value), c.after);
    StartsConcat(t, p, c.before + Text(c.value) + c.after, last);
    CommaWithin(t, k);
    ChIs(t, k);
    ItemsAreValid(c);
  }

  lemma ItemsAreValid(c: Items)
    requires c.Item? && Space(c.before) && Space(c.after) && Valid(c.value) && !c.value.Open? && ValidItems(c.rest)
    ensures ValidItems(c)
    ensures ItemsText(c) == c.before + Text(c.value) + c.after
                            + (if c.rest.NoItem? then [93] else [44] + ItemsText(c.rest))
  {
    hide Valid, Space, Text;
  }

  lemma {:induction false} RecordFound(t: Bytes, i: nat) returns (s: Syntax)
    requires i < |t| && Ch(t, i) == 123 && ParseValue(t, i).Ok?
    ensures s.Record? && Valid(s) && StartsWith(t, i, Text(s)) && ParseValue(t, i) == Ok(Value(s), i + |Text(s)|)
    decreases |t| - i - 1, 2
  {
    hide *;
    ObjectStep(t, i);
    NotOpen(t, i);
    var j := Skip(t, i + 1);
    var ws := SpaceFound(t, i + 1);
    var ms := NoMember;
    if Ch(t, j) != 125 {
      ms := MembersFound(t, j);
    }
    s := Record(ws, ms);
    RecordPut(t, i, ws, ms);
  }

  lemma RecordPut(t: Bytes, i: nat, ws: Bytes, ms: Members)
    requires i < |t| && Ch(t, i) == 123 && Space(ws) && StartsWith(t, i + 1, ws) && ValidMembers(ms)
    requires if ms.NoMember? then Ch(t, i + 1 + |ws|) == 125 else StartsWith(t, i + 1 + |ws|, MembersText(ms))
    ensures var s := Record(ws, ms);
            && Valid(s) && StartsWith(t, i, Text(s)) && Value(s) == Object(MembersValue(ms))
            && |Text(s)| == 1 + |ws| + (if ms.NoMember? then 1 else |MembersText(ms)|)
            && (ms.NoMember? ==> MembersValue(ms) == [])
  {
    hide StartsWith, MembersText, ValidMembers;
    var last: Bytes := if ms.NoMember? then [125] else MembersText(ms);
    StartsOne(t, i, 123);
    StartsOne(t, i + 1 + |ws|, 125);
    StartsConcat(t, i, [123], ws);
    StartsConcat(t, i, [123] + ws, last);
  }

  lemma {:induction false} MembersFound(t: Bytes, i: nat) returns (c: Members)
    requires i <= |t| && ParseMembers(t, i).Ok?
    ensures c.Named? && ValidMembers(c) && StartsWith(t, i, MembersText(c))
    ensures ParseMembers(t, i) == Ok(MembersValue(c), i + |MembersText(c)|)
    decreases |t| - i, 1
  {
    hide *;
    MembersStep(t, i);
    MemberStep(t, i);
    var before, name, between := NameFound(t, i);
    var p := i + |before| + |QuotedText(name)| + |between| + 1;
    var ws := SpaceFound(t, p);
    var q := Skip(t, p);
    var v := ValueFound(t, q);
    var e := q + |Text(v)|;
    StartsWithin(t, q, Text(v));
    var after := SpaceFound(t, e);
    var k := Skip(t, e);
    NotOpen(t, e);
    var rest := NoMember;
    CommaWithin(t, k);
    if Ch(t, k) == 44 {
      rest := MembersFound(t, k + 1);
    }
    c := Named(before, name, between, ws, v, after, rest);
    MemberPut(t, i, c);
    MemberIs(c);
  }

  /** A name, with white space before and behind it, and the colon. */
  lemma NameFound(t: Bytes, i: nat) returns (before: Bytes, name: seq<Char>, between: Bytes)
    requires i <= |t| && ParseMember(t, i).Ok?
    ensures Space(before) && ValidChars(name) && Space(between)
    ensures StartsWith(t, i, before) && StartsWith(t, i + |before|, QuotedText(name))
    ensures StartsWith(t, i + |before| + |QuotedText(name)|, between)
    ensures i + |before| == Skip(t, i)
    ensures ParseString(t, Skip(t, i)) == Ok(CharsBytes(name), i + |before| + |QuotedText(name)|)
    ensures var m := i + |before| + |QuotedText(name)| + |between|;
            m < |t| && Ch(t, m) == 58 && Skip(t, i + |before| + |QuotedText(name)|) == m
  {
    hide StartsWith, QuotedText, ValidChars, CharsBytes, ParseString, Skip, ParseValue;
    before := SpaceFound(t, i);
    name := StringFound(t, Skip(t, i));
    var e := ParseString(t, Skip(t, i)).end;
    NotOpen(t, e);
    between := SpaceFound(t, e);
  }

  lemma MemberPut(t: Bytes, p: nat, c: Members)
    requires c.Named? && Space(c.before) && ValidChars(c.name) && Space(c.between) && Space(c.ws) && Space(c.after)
    requires Valid(c.value) && !c.value.Open? && ValidMembers(c.rest)
    requires StartsWith(t, p, c.before) && StartsWith(t, p + |c.before|, QuotedText(c.name))
    requires StartsWith(t, p + |c.before| + |QuotedText(c.name)|, c.between)
    requires var m := p + |c.before| + |QuotedText(c.name)| + |c.between|;
             var k := m + 1 + |c.ws| + |Text(c.value)| + |c.after|;
             && Ch(t, m) == 58 && StartsWith(t, m + 1, c.ws) && StartsWith(t, m + 1 + |c.ws|, Text(c.value))
             && StartsWith(t, m + 1 + |c.ws| + |Text(c.value)|, c.after)
             && if c.rest.NoMember? then Ch(t, k) == 125
                else Ch(t, k) == 44 && StartsWith(t, k + 1, MembersText(c.rest))
    ensures ValidMembers(c) && StartsWith(t, p, MembersText(c))
    ensures |MembersText(c)| == |c.before| + |QuotedText(c.name)| + |c.between| + 1
                                + |c.ws| + |Text(c.value)| + |c.after|
                                + (if c.rest.NoMember? then 1 else 1 + |MembersText(c.rest)|)
  {
    hide *;
    var m := p + |c.before| + |QuotedText(c.name)| + |c.between|;
    StartsOne(t, m, 58);
    CommaWithin(t, m);
    ChIs(t, m);
    StartsConcat(t, p, c.before, QuotedText(c.name));
    StartsConcat(t, p, c.before + QuotedText(c.name), c.between);
    StartsConcat(t, p, c.before + QuotedText(c.name) + c.between, [58]);
    StartsConcat(t, p, c.before + QuotedText(c.name) + c.between + [58], MemberTail(c));
    MembersTextIs(c);
    TailPut(t, m + 1, c);
    MembersAreValid(c);
  }

  lemma ChIs(t: Bytes, i: nat)
    ensures i < |t| ==> Ch(t, i) == t[i]
  {
  }

  lemma MembersAreValid(c: Members)
    requires c.Named? && Space(c.before) && ValidChars(c.name) && Space(c.between) && Space(c.ws) && Space(c.after)
    requires Valid(c.value) && !c.value.Open? && ValidMembers(c.rest)
    ensures ValidMembers(c)
  {
    hide Valid, ValidChars, Space;
  }

  lemma TailPut(t: Bytes, p: nat, c: Members)
    requires c.Named? && StartsWith(t, p, c.ws) && StartsWith(t, p + |c.ws|, Text(c.value))
    requires StartsWith(t, p + |c.ws| + |Text(c.value)|, c.after)
    requires var k := p + |c.ws| + |Text(c.value)| + |c.after|;
             if c.rest.NoMember? then Ch(t, k) == 125 else Ch(t, k) == 44 && StartsWith(t, k + 1, MembersText(c.rest))
    ensures StartsWith(t, p, MemberTail(c))
    ensures |MemberTail(c)| == |c.ws| + |Text(c.value)| + |c.after|
                               + (if c.rest.NoMember? then 1 else 1 + |MembersText(c.rest)|)
  {
    hide StartsWith, Text, MembersText;
    var k := p + |c.ws| + |Text(c.value)| + |c.after|;
    var last: Bytes := if c.rest.NoMember? then [125] else [44] + MembersText(c.rest);
    StartsOne(t, k, 125);
    StartsOne(t, k, 44);
    StartsConcat(t, k, [44], MembersText(c.rest));
    StartsConcat(t, p, c.ws, Text(c.value));
    StartsConcat(t, p, c.ws + Text(c.value), c.after);
    StartsConcat(t, p, c.ws + Text(c.value) + c.after, last);
  }

  /** A text is read to its end as a value if and only if it is white space and a text of the grammar that
      stands for the value. */
  lemma AcceptedIff(t: Bytes, v: Json)
    ensures Parse(t) == Ok(v, |t|) <==>
            exists w, s :: Space(w) && Valid(s) && t == w + Text(s) && v == Value(s)
  {
    hide StartsWith, ParseValue, Skip, Text, Value, Valid, Space, Follows;
    if Parse(t) == Ok(v, |t|) {
      var w := SpaceFound(t, 0);
      var s := ValueFound(t, Skip(t, 0));
      StartsConcat(t, 0, w, Text(s));
      WholeText(t, w + Text(s));
    }
    if w, s :| Space(w) && Valid(s) && t == w + Text(s) && v == Value(s) {
      WholeText(t, w + Text(s));
      StartsConcat(t, 0, w, Text(s));
      EndFollows(s, t);
      ValueRead(t, |w|, s);
      SpaceSkipped(t, w);
      StartsNoSkip(t, |w|);
    }
  }

  lemma WholeText(t: Bytes, a: Bytes)
    ensures StartsWith(t, 0, a) && |a| == |t| <==> t == a
  {
    assert t[0..|t|] == t;
  }

  lemma EndFollows(s: Syntax, t: Bytes)
    ensures Follows(s, t, |t|)
  {
  }

  lemma SpaceSkipped(t: Bytes, w: Bytes)
    requires Space(w) && StartsWith(t, 0, w)
    ensures Skip(t, 0) == Skip(t, |w|) && |w| <= |t|
  {
    hide Skip;
    SkipAll(t, 0, w);
  }

  // ---------- strings of codes, and some inputs ----------

  /** A code point written as the code of its four hex digits, or as the codes of its two halves. */
  predicate IsCodeOf(c: Char, u: nat) { ValidChar(c) && (c.Code? || c.Halves?) && c.u == u }

  /** Every code point but the halves can be written so, in small digits or in capitals. */
  lemma CodeOfExists(u: nat, digits: string) returns (c: Char)
    requires 0 < u < 0x110000 && !High(u) && !LowHalf(u) && (digits == SMALL || digits == CAPITAL)
    ensures IsCodeOf(c, u)
  {
    hide Spells, FourDigits, High, LowHalf;
    if u < 0x10000 {
      c := Code(u, FourDigits(u, digits));
      FourDigitsSpell(u, digits);
    } else {
      var v, w := 0xD800 + (u - 0x10000) / 0x400, 0xDC00 + (u - 0x10000) % 0x400;
      c := Halves(u, FourDigits(v, digits), FourDigits(w, digits));
      FourDigitsSpell(v, digits);
      FourDigitsSpell(w, digits);
    }
  }

  function FourDigits(u: nat, digits: string): Bytes
    requires u < 0x10000 && (digits == SMALL || digits == CAPITAL)
  {
    [digits[u / 4096] as int, digits[u / 256 % 16] as int, digits[u / 16 % 16] as int, digits[u % 16] as int]
  }

  lemma FourDigitsSpell(u: nat, digits: string)
    requires u < 0x10000 && (digits == SMALL || digits == CAPITAL)
    ensures Spells(FourDigits(u, digits), u)
  {
  }

  /** A string of such codes is read as the UTF-8 coding of the code points. */
  lemma {:induction false} CodesRead(cs: seq<Char>, us: seq<nat>) returns (parts: seq<Bytes>)
    requires |cs| == |us| && forall k :: 0 <= k < |us| ==> IsCodeOf(cs[k], us[k])
    ensures |parts| == |us| && forall k :: 0 <= k < |us| ==> IsUtf8(parts[k], us[k])
    ensures ValidChars(cs) && CharsBytes(cs) == Concat(parts)
    ensures Parse(QuotedText(cs)) == Ok(String(Concat(parts)), |QuotedText(cs)|)
  {
    hide *;
    parts := CodingOf(cs, us);
    var s := Quoted(cs);
    QuotedIs(cs);
    assert [] + Text(s) == Text(s);
    assert Space([]) by { NoSpace(); }
    AcceptedIff(QuotedText(cs), Value(s));
  }

  lemma NoSpace()
    ensures Space([])
  {
  }

  lemma QuotedIs(cs: seq<Char>)
    requires ValidChars(cs)
    ensures Valid(Quoted(cs)) && Text(Quoted(cs)) == QuotedText(cs) && Value(Quoted(cs)) == String(CharsBytes(cs))
  {
    hide ValidChars, QuotedText, CharsBytes;
  }

  lemma {:induction false} CodingOf(cs: seq<Char>, us: seq<nat>) returns (parts: seq<Bytes>)
    requires |cs| == |us| && forall k :: 0 <= k < |us| ==> IsCodeOf(cs[k], us[k])
    ensures |parts| == |us| && forall k :: 0 <= k < |us| ==> IsUtf8(parts[k], us[k])
    ensures ValidChars(cs) && CharsBytes(cs) == Concat(parts)
  {
    hide IsUtf8, Utf8, ValidChar;
    parts := [];
    if cs != [] {
      assert IsCodeOf(cs[0], us[0]);
      var rest := CodingOf(cs[1..], us[1..]);
      CodeBound(cs[0]);
      Utf8Iff(Utf8(us[0]), us[0]);
      parts := [Utf8(us[0])] + rest;
    }
  }

  lemma CodeBound(c: Char)
    requires ValidChar(c) && (c.Code? || c.Halves?)
    ensures c.u < 0x110000 && CharBytes(c) == Utf8(c.u)
  {
    hide Spells, Utf8;
  }

  /** The code of a Chinese character, in digits of both cases. */
  lemma CodeInput()
    ensures Parse(Chars("\"\\u4e2D\"")) == Ok(String([0xE4, 0xB8, 0xAD]), 8)
  {
    hide *;
    var c, s := Code(0x4E2D, Chars("4e2D")), Quoted([Code(0x4E2D, Chars("4e2D"))]);
    CodeSpelled();
    CodeText();
    QuotedIs([c]);
    NoSpace();
    assert [] + Text(s) == Text(s);
    AcceptedIff(Text(s), Value(s));
  }

  lemma CodeSpelled()
    ensures var cs := [Code(0x4E2D, Chars("4e2D"))]; ValidChars(cs) && CharsBytes(cs) == [0xE4, 0xB8, 0xAD]
  {
    assert SMALL[4] == '4' && SMALL[14] == 'e' && SMALL[2] == '2' && CAPITAL[13] == 'D';
    assert Spells(Chars("4e2D"), 0x4E2D);
    hide Spells, Chars;
    assert [Code(0x4E2D, Chars("4e2D"))][1..] == [];
  }

  lemma CodeText()
    ensures var cs := [Code(0x4E2D, Chars("4e2D"))];
            QuotedText(cs) == Chars("\"\\u4e2D\"") && |QuotedText(cs)| == 8
  {
    var cs := [Code(0x4E2D, Chars("4e2D"))];
    assert cs[1..] == [];
    assert CharsText(cs) == [92, 117, 52, 101, 50, 68];
    hide CharsText;
  }
}
