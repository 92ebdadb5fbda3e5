/** What the header matchers recognize: the states of the switch on header_state against the names
    and values they stand for. */
module HttpFields {
  import opened HttpTypes
  import opened HttpStep

  /** The lowercase form of a field name. */
  function Name(n: seq<Octet>): seq<Octet> {
    if n == [] then [] else Name(n[..|n| - 1]) + [Token(n[|n| - 1])]
  }

  /** The header state and index after a field name: s_header_field_start, then s_header_field. */
  function NameState(p: Parser, n: seq<Octet>): Parser
    requires n != []
  {
    if |n| == 1 then p.(index := 0, state := Field, headerState := FieldFirst(Token(n[0])))
    else
      var q := NameState(p, n[..|n| - 1]);
      if q.headerState.General? then q else FieldByte(q, n[|n| - 1])
  }

  predicate Tokens(n: seq<Octet>) { forall i :: 0 <= i < |n| ==> IsToken(n[i]) }

  /** `w` begins some name that the parser looks for. */
  predicate Begins(w: seq<Octet>) {
    w <= CONNECTION || w <= PROXY_CONNECTION || w <= CONTENT_LENGTH || w <= TRANSFER_ENCODING || w <= UPGRADE
  }

  /** How a header state and index stand for the lowercase characters read so far. */
  predicate Stands(w: seq<Octet>, h: HeaderState, i: nat) {
    match h
    case General => !Begins(w)
    case HC => w == "c" && i == 0
    case HCO => w == "co" && i == 1
    case HCON => w == "con" && i == 2
    case MatchingConnection => |w| >= 4 && Partial(w, i, CONNECTION)
    case MatchingProxyConnection => Partial(w, i, PROXY_CONNECTION)
    case MatchingContentLength => |w| >= 4 && Partial(w, i, CONTENT_LENGTH)
    case MatchingTransferEncoding => Partial(w, i, TRANSFER_ENCODING)
    case MatchingUpgrade => Partial(w, i, UPGRADE)
    case Connection => w == CONNECTION || w == PROXY_CONNECTION
    case ContentLength => w == CONTENT_LENGTH
    case TransferEncoding => w == TRANSFER_ENCODING
    case Upgrade => w == UPGRADE
    case _ => false
  }

  predicate Partial(w: seq<Octet>, i: nat, lit: string) { |w| == i + 1 < |lit| && w <= lit }

  /** A prefix grows by the next character and no other. */
  lemma Grow(w: seq<Octet>, c: Octet, lit: string)
    ensures w + [c] <= lit <==> w <= lit && |w| < |lit| && c == lit[|w|]
  {
    if w + [c] <= lit {
      assert (w + [c])[|w|] == c;
      assert forall k :: 0 <= k < |w| ==> (w + [c])[k] == w[k];
    }
  }

  /** The first four characters tell the names apart. */
  lemma Apart(w: seq<Octet>)
    ensures |w| >= 1 && (w <= CONNECTION || w <= CONTENT_LENGTH) ==> w[0] == 'c'
    ensures |w| >= 2 && (w <= CONNECTION || w <= CONTENT_LENGTH) ==> w[1] == 'o'
    ensures |w| >= 3 && (w <= CONNECTION || w <= CONTENT_LENGTH) ==> w[2] == 'n'
    ensures |w| >= 4 && w <= CONNECTION ==> w[3] == 'n'
    ensures |w| >= 4 && w <= CONTENT_LENGTH ==> w[3] == 't'
    ensures |w| >= 1 && w <= PROXY_CONNECTION ==> w[0] == 'p'
    ensures |w| >= 1 && w <= TRANSFER_ENCODING ==> w[0] == 't'
    ensures |w| >= 1 && w <= UPGRADE ==> w[0] == 'u'
  {
  }

  /** Growing by a character, for each of the names. */
  lemma GrowAll(w: seq<Octet>, c: Octet)
    ensures w + [c] <= CONNECTION <==> w <= CONNECTION && |w| < 10 && c == CONNECTION[|w|]
    ensures w + [c] <= PROXY_CONNECTION <==> w <= PROXY_CONNECTION && |w| < 16 && c == PROXY_CONNECTION[|w|]
    ensures w + [c] <= CONTENT_LENGTH <==> w <= CONTENT_LENGTH && |w| < 14 && c == CONTENT_LENGTH[|w|]
    ensures w + [c] <= TRANSFER_ENCODING <==> w <= TRANSFER_ENCODING && |w| < 17 && c == TRANSFER_ENCODING[|w|]
    ensures w + [c] <= UPGRADE <==> w <= UPGRADE && |w| < 7 && c == UPGRADE[|w|]
  {
    Grow(w, c, CONNECTION);
    Grow(w, c, PROXY_CONNECTION);
    Grow(w, c, CONTENT_LENGTH);
    Grow(w, c, TRANSFER_ENCODING);
    Grow(w, c, UPGRADE);
  }

  lemma LiteralStep(w: seq<Octet>, p: Parser, c: Octet, lit: string, done: HeaderState)
    requires Partial(w, p.index, lit)
    ensures var q := MatchLiteral(p, c, lit, done);
            && (q.headerState == General || q.headerState == done || q.headerState == p.headerState)
            && if w + [c] <= lit then
                 (if |w| + 1 == |lit| then w + [c] == lit && q.headerState == done
                  else q.headerState == p.headerState && Partial(w + [c], q.index, lit))
               else q.headerState == General
  {
    Grow(w, c, lit);
  }

  predicate FirstLetters(h: HeaderState) { h.HC? || h.HCO? || h.HCON? }

  lemma FirstLettersStep(w: seq<Octet>, p: Parser, ch: Octet)
    requires FirstLetters(p.headerState) && Stands(w, p.headerState, p.index)
    ensures var q := FieldByte(p, ch); Stands(w + [Token(ch)], q.headerState, q.index)
  {
    hide MatchLiteral, Token;
    GrowAll(w, Token(ch));
    Apart(w + [Token(ch)]);
  }

  predicate MatchingName(h: HeaderState) {
    h.MatchingConnection? || h.MatchingProxyConnection? || h.MatchingContentLength? || h.MatchingTransferEncoding?
    || h.MatchingUpgrade?
  }

  /** The name that is being matched, and the state when all of it has been. */
  function Target(h: HeaderState): (string, HeaderState)
    requires MatchingName(h)
  {
    match h
    case MatchingConnection => (CONNECTION, Connection)
    case MatchingProxyConnection => (PROXY_CONNECTION, Connection)
    case MatchingContentLength => (CONTENT_LENGTH, ContentLength)
    case MatchingTransferEncoding => (TRANSFER_ENCODING, TransferEncoding)
    case MatchingUpgrade => (UPGRADE, Upgrade)
  }

  lemma MatchingByte(p: Parser, ch: Octet)
    requires MatchingName(p.headerState)
    ensures FieldByte(p, ch) == MatchLiteral(p, Token(ch), Target(p.headerState).0, Target(p.headerState).1)
  {
    hide MatchLiteral, Token;
  }

  lemma TargetStands(w: seq<Octet>, h: HeaderState, i: nat)
    requires MatchingName(h) && w != [] && Stands(w, h, i)
    ensures Partial(w, i, Target(h).0)
  {
  }

  /** One more character that the name has: what has been read is still its beginning, or all of it. */
  lemma TargetGrows(w: seq<Octet>, h: HeaderState, i: nat)
    requires MatchingName(h) && |w| >= 1 && (h.MatchingConnection? || h.MatchingContentLength? ==> |w| >= 4)
    ensures Partial(w, i, Target(h).0) ==> Stands(w, h, i)
    ensures w == Target(h).0 ==> Stands(w, Target(h).1, i)
  {
  }

  /** A beginning that one name has and not the next character of it begins no name. */
  lemma TargetLeft(w: seq<Octet>, c: Octet, h: HeaderState, i: nat)
    requires MatchingName(h) && w != [] && Stands(w, h, i) && !(w + [c] <= Target(h).0)
    ensures !Begins(w + [c])
  {
    GrowAll(w, c);
    Apart(w);
  }

  lemma StandsMatching(w: seq<Octet>, p: Parser, ch: Octet)
    requires w != [] && Stands(w, p.headerState, p.index) && MatchingName(p.headerState)
    ensures var q := FieldByte(p, ch);
            Stands(w + [Token(ch)], q.headerState, q.index)
  {
    var h, c := p.headerState, Token(ch);
    var lit, done := Target(h).0, Target(h).1;
    MatchingByte(p, ch);
    TargetStands(w, h, p.index);
    LiteralStep(w, p, c, lit, done);
    var q := MatchLiteral(p, c, lit, done);
    assert h.MatchingConnection? || h.MatchingContentLength? ==> |w| >= 4;
    TargetGrows(w + [c], h, q.index);
    if w + [c] <= lit {
      hide Stands, FieldByte, MatchLiteral, Token, Begins;
    } else {
      TargetLeft(w, c, h, p.index);
    }
  }

  lemma StandsStep(w: seq<Octet>, p: Parser, ch: Octet)
    requires w != [] && Stands(w, p.headerState, p.index)
    requires IsToken(ch)
    ensures var q := if p.headerState.General? then p else FieldByte(p, ch);
            Stands(w + [Token(ch)], q.headerState, q.index)
  {
    if FirstLetters(p.headerState) {
      hide Token, Stands, FieldByte;
      FirstLettersStep(w, p, ch);
    } else if MatchingName(p.headerState) {
      hide Token, Stands, FieldByte;
      StandsMatching(w, p, ch);
    } else {
      TokenIsNotSpace(ch);
      hide Token, IsToken, MatchLiteral;
      GrowAll(w, Token(ch));
      Apart(w);
    }
  }

  lemma TokenIsNotSpace(ch: Octet)
    requires IsToken(ch)
    ensures ch != ' ' && ch != ':' && ch != CR && ch != LF && ch != TAB
  {
  }

  lemma {:induction false} NameStands(p: Parser, n: seq<Octet>)
    requires n != [] && Tokens(n)
    ensures var q := NameState(p, n); Stands(Name(n), q.headerState, q.index) && |Name(n)| == |n|
  {
    if |n| == 1 {
      assert n[..0] == [] && Name(n[..0]) == [];
      GrowAll([], Token(n[0]));
      assert [] + [Token(n[0])] == [Token(n[0])];
    } else {
      NameStands(p, n[..|n| - 1]);
      StandsStep(Name(n[..|n| - 1]), NameState(p, n[..|n| - 1]), n[|n| - 1]);
    }
  }

  /** A field name is recognized exactly when its lowercase form is one of the names. */
  lemma NameRecognized(p: Parser, n: seq<Octet>)
    requires n != [] && Tokens(n)
    ensures var h := NameState(p, n).headerState;
            && (h == Connection <==> Name(n) == "connection" || Name(n) == "proxy-connection")
            && (h == ContentLength <==> Name(n) == "content-length")
            && (h == TransferEncoding <==> Name(n) == "transfer-encoding")
            && (h == Upgrade <==> Name(n) == "upgrade")
  {
    hide FieldByte, FieldFirst, IsToken;
    NameStands(p, n);
    Apart(Name(n));
  }

  // ---------- values ----------

  function LowerAll(v: seq<Octet>): seq<Octet> {
    if v == [] then [] else LowerAll(v[..|v| - 1]) + [Lower(v[|v| - 1])]
  }

  /** The record after a header value: s_header_value_start, then s_header_value. */
  function ValueState(p: Parser, v: seq<Octet>): Parser
    requires v != []
  {
    if |v| == 1 then StepValueStart(p, v[0]).p
    else
      var q := ValueState(p, v[..|v| - 1]);
      if !q.errno.OK? then q else ValueByte(q, v[|v| - 1]).p
  }

  /** The value is a word, in any case, with nothing but spaces after it. */
  predicate Word(v: seq<Octet>, lit: string) {
    |v| >= |lit| && LowerAll(v[..|lit|]) == lit && forall i :: |lit| <= i < |v| ==> v[i] == ' '
  }

  /** `v` may still turn out to be the word, or is it already. */
  predicate WordOpen(v: seq<Octet>, lit: string) { LowerAll(v) <= lit || Word(v, lit) }

  lemma {:induction false} LowerAllLength(v: seq<Octet>)
    ensures |LowerAll(v)| == |v|
  {
    if v != [] {
      LowerAllLength(v[..|v| - 1]);
    }
  }

  lemma LowerAllSnoc(v: seq<Octet>, ch: Octet)
    ensures LowerAll(v + [ch]) == LowerAll(v) + [Lower(ch)]
  {
    assert (v + [ch])[..|v + [ch]| - 1] == v;
  }

  /** Once the word is complete, only spaces may follow. */
  lemma WordTail(v: seq<Octet>, ch: Octet, lit: string)
    requires |v| >= |lit|
    ensures Word(v + [ch], lit) <==> Word(v, lit) && ch == ' '
  {
    hide LowerAll;
    var v' := v + [ch];
    assert v'[..|lit|] == v[..|lit|];
    if Word(v', lit) {
      assert v'[|v|] == ' ';
      forall i | |lit| <= i < |v| ensures v[i] == ' ' {
        assert v'[i] == ' ';
      }
    }
  }

  /** A word of exactly the length of the literal is the literal. */
  lemma WordWhole(v: seq<Octet>, lit: string)
    requires |v| <= |lit|
    ensures Word(v, lit) <==> |v| == |lit| && LowerAll(v) <= lit
  {
    hide LowerAll;
    LowerAllLength(v);
    if |v| == |lit| {
      assert v[..|lit|] == v;
    }
  }

  /** One more byte of a value that may be a word. */
  lemma WordStep(v: seq<Octet>, ch: Octet, lit: string)
    ensures LowerAll(v + [ch]) <= lit <==> LowerAll(v) <= lit && |v| < |lit| && Lower(ch) == lit[|v|]
    ensures |v| < |lit| ==> (Word(v + [ch], lit) <==> |v| + 1 == |lit| && LowerAll(v + [ch]) <= lit)
    ensures |v| >= |lit| ==> (Word(v + [ch], lit) <==> Word(v, lit) && ch == ' ')
  {
    hide Lower, LowerAll, Word;
    LowerAllSnoc(v, ch);
    LowerAllLength(v);
    Grow(LowerAll(v), Lower(ch), lit);
    if |v| >= |lit| {
      WordTail(v, ch, lit);
    } else {
      WordWhole(v + [ch], lit);
    }
  }

  predicate WordStands(v: seq<Octet>, h: HeaderState, i: nat, lit: string, matching: HeaderState, done: HeaderState) {
    && (h == matching ==> |v| == i + 1 < |lit| && LowerAll(v) <= lit)
    && (h == done ==> Word(v, lit))
    && (h != matching && h != done ==> !WordOpen(v, lit))
  }

  /** One step of the matcher for a value. */
  lemma WordMatch(v: seq<Octet>, p: Parser, ch: Octet, lit: string, matching: HeaderState, done: HeaderState)
    requires matching != General && done != General && matching != done
    requires p.headerState == matching || p.headerState == done || p.headerState == General
    requires WordStands(v, p.headerState, p.index, lit, matching, done) && v != []
    requires |lit| > 0
    ensures var q := if p.headerState == matching then MatchLiteral(p, Lower(ch), lit, done)
                     else if p.headerState == done && ch != ' ' then p.(headerState := General)
                     else p;
            && (q.headerState == matching || q.headerState == done || q.headerState == General)
            && WordStands(v + [ch], q.headerState, q.index, lit, matching, done)
  {
    hide Lower, LowerAll;
    WordStep(v, ch, lit);
    LowerAllLength(v);
    LowerAllLength(v + [ch]);
  }

  /** A value that does not begin like a word never becomes one. */
  lemma WordStaysClosed(v: seq<Octet>, ch: Octet, lit: string)
    requires !WordOpen(v, lit)
    ensures !WordOpen(v + [ch], lit)
  {
    hide Lower, LowerAll;
    WordStep(v, ch, lit);
    LowerAllLength(v);
  }

  lemma OneLower(c: Octet)
    ensures LowerAll([c]) == [Lower(c)]
  {
    assert [c][..0] == [] && LowerAll([]) == [];
  }

  lemma FirstOfWord(c: Octet, lit: string)
    requires |lit| > 1
    ensures LowerAll([c]) <= lit <==> Lower(c) == lit[0]
    ensures !Word([c], lit)
  {
    OneLower(c);
  }

  /** After a Transfer-Encoding field name: the value is recognized exactly when it is "chunked". */
  lemma {:induction false} ChunkedRecognized(p: Parser, v: seq<Octet>)
    requires v != [] && p.headerState == TransferEncoding && p.errno.OK?
    ensures var q := ValueState(p, v);
            && q.errno.OK? && q == p.(state := Value, index := q.index, headerState := q.headerState)
            && (q.headerState == MatchingChunked || q.headerState == Chunked || q.headerState == General)
            && WordStands(v, q.headerState, q.index, "chunked", MatchingChunked, Chunked)
  {
    hide Lower, LowerAll, MatchLiteral, WordStands, WordOpen, Word;
    if |v| == 1 {
      FirstOfWord(v[0], CHUNKED);
      assert v == [v[0]];
      assert WordStands(v, StepValueStart(p, v[0]).p.headerState, 0, CHUNKED, MatchingChunked, Chunked)
             by { FirstStands(v, CHUNKED, MatchingChunked, Chunked); }
    } else {
      var u, ch := v[..|v| - 1], v[|v| - 1];
      ChunkedRecognized(p, u);
      assert u + [ch] == v;
      WordMatch(u, ValueState(p, u), ch, CHUNKED, MatchingChunked, Chunked);
      MatchLiteralKeepsRest(ValueState(p, u), Lower(ch), CHUNKED, Chunked);
    }
  }

  lemma MatchLiteralKeepsRest(p: Parser, c: Octet, lit: string, done: HeaderState)
    ensures var q := MatchLiteral(p, c, lit, done);
            q == p.(index := q.index, headerState := q.headerState)
  {
  }

  lemma FirstStands(v: seq<Octet>, lit: string, matching: HeaderState, done: HeaderState)
    requires |v| == 1 && |lit| > 1 && matching != General && done != General && matching != done
    ensures WordStands(v, if Lower(v[0]) == lit[0] then matching else General, 0, lit, matching, done)
  {
    FirstOfWord(v[0], lit);
    assert v == [v[0]];
  }

  /** After a Connection field name: the first letter chooses the word to look for. */
  lemma {:induction false} ConnectionRecognized(p: Parser, v: seq<Octet>)
    requires v != [] && p.headerState == Connection && p.errno.OK?
    ensures var q := ValueState(p, v);
            && q.errno.OK? && q == p.(state := Value, index := q.index, headerState := q.headerState)
            && ConnectionStands(v, q.headerState, q.index)
  {
    hide Lower, LowerAll, MatchLiteral, WordStands, WordOpen, Word;
    if |v| == 1 {
      FirstConnection(v);
    } else {
      var u, ch := v[..|v| - 1], v[|v| - 1];
      ConnectionRecognized(p, u);
      assert u + [ch] == v;
      var q := ValueState(p, u);
      MatchLiteralKeepsRest(q, Lower(ch), KEEP_ALIVE, KeepAlive);
      MatchLiteralKeepsRest(q, Lower(ch), CLOSE, Close);
      ConnectionStep(u, q, ch);
    }
  }

  lemma FirstConnection(v: seq<Octet>)
    requires |v| == 1
    ensures ConnectionStands(v, if Lower(v[0]) == 'k' then MatchingKeepAlive
                             else if Lower(v[0]) == 'c' then MatchingClose else General, 0)
  {
    hide Lower, LowerAll, WordOpen, Word;
    FirstStands(v, KEEP_ALIVE, MatchingKeepAlive, KeepAlive);
    FirstStands(v, CLOSE, MatchingClose, Close);
  }

  /** The header states in a Connection value: one word may be under way, the other is ruled out. */
  predicate ConnectionStands(v: seq<Octet>, h: HeaderState, i: nat) {
    && (h.MatchingKeepAlive? || h.KeepAlive? || h.MatchingClose? || h.Close? || h.General?)
    && WordStands(v, h, i, "keep-alive", MatchingKeepAlive, KeepAlive)
    && WordStands(v, h, i, "close", MatchingClose, Close)
  }

  lemma ConnectionStep(v: seq<Octet>, p: Parser, ch: Octet)
    requires ConnectionStands(v, p.headerState, p.index) && v != []
    ensures var q := ValueByte(p, ch).p; ConnectionStands(v + [ch], q.headerState, q.index)
  {
    hide Lower, LowerAll, MatchLiteral, WordOpen, Word;
    if !(p.headerState.MatchingClose? || p.headerState.Close?) {
      WordMatch(v, p, ch, KEEP_ALIVE, MatchingKeepAlive, KeepAlive);
      WordStaysClosed(v, ch, CLOSE);
    } else {
      WordMatch(v, p, ch, CLOSE, MatchingClose, Close);
      WordStaysClosed(v, ch, KEEP_ALIVE);
    }
  }

  /** The flags a complete header sets are exactly those its name and value call for. */
  lemma FlagsRecognized(p: Parser, v: seq<Octet>)
    requires v != [] && p.errno.OK?
    ensures p.headerState == TransferEncoding ==>
              HeaderFlags(ValueState(p, v)) == p.flags.(chunked := p.flags.chunked || Word(v, "chunked"))
    ensures p.headerState == Connection ==>
              HeaderFlags(ValueState(p, v)) ==
              p.flags.(keepAlive := p.flags.keepAlive || Word(v, "keep-alive"), close := p.flags.close
                       || Word(v, "close"))
  {
    hide LowerAll, ValueState, Word;
    if p.headerState == TransferEncoding {
      ChunkedRecognized(p, v);
      WordTooShort(v, CHUNKED);
    } else if p.headerState == Connection {
      ConnectionRecognized(p, v);
      WordTooShort(v, KEEP_ALIVE);
      WordTooShort(v, CLOSE);
    }
  }

  /** A word still being matched is not one yet. */
  lemma WordTooShort(v: seq<Octet>, lit: string)
    ensures |v| < |lit| ==> !Word(v, lit)
  {
    hide LowerAll;
  }

  // ---------- lengths ----------

  /** The digits of a Content-Length value: spaces after the first digit are passed over. */
  predicate Decimal(v: seq<Octet>) {
    v != [] && IsNum(v[0]) && forall i :: 0 < i < |v| ==> IsNum(v[i]) || v[i] == ' '
  }

  /** The number a Content-Length value denotes. */
  function DecimalValue(v: seq<Octet>): nat
    requires Decimal(v)
  {
    if |v| == 1 then Digit(v[0])
    else if v[|v| - 1] == ' ' then DecimalValue(v[..|v| - 1])
    else DecimalValue(v[..|v| - 1]) * 10 + Digit(v[|v| - 1])
  }

  /** The largest lengths that the overflow tests let through. */
  const MAX_DECIMAL: nat := (ULLONG_MAX - 10) / 10 * 10 + 9
  const MAX_HEX: nat := (ULLONG_MAX - 16) / 16 * 16 + 15

  lemma Below(t: nat, d: nat, base: nat)
    requires base == 10 || base == 16
    requires d < base
    ensures t <= (ULLONG_MAX - base) / base <==> t * base + d <= (ULLONG_MAX - base) / base * base + (base - 1)
    ensures t <= (ULLONG_MAX - base) / base ==> Scaled(t, base, d) == t * base + d
  {
    if base == 10 {
      Below10(t, d);
    } else {
      Below16(t, d);
    }
  }

  lemma Below10(t: nat, d: nat)
    requires d < 10
    ensures t <= (ULLONG_MAX - 10) / 10 <==> t * 10 + d <= (ULLONG_MAX - 10) / 10 * 10 + 9
    ensures t <= (ULLONG_MAX - 10) / 10 ==> Scaled(t, 10, d) == t * 10 + d
  {
  }

  lemma Below16(t: nat, d: nat)
    requires d < 16
    ensures t <= (ULLONG_MAX - 16) / 16 <==> t * 16 + d <= (ULLONG_MAX - 16) / 16 * 16 + 15
    ensures t <= (ULLONG_MAX - 16) / 16 ==> Scaled(t, 16, d) == t * 16 + d
  {
  }

  /** A Content-Length value is accepted exactly when it is decimal and at most MAX_DECIMAL, and then the
      length is the exact number: no 64-bit wrap-around, and never the value for "no length". */
  lemma {:induction false} LengthIsExact(p: Parser, v: seq<Octet>)
    requires v != [] && p.headerState == ContentLength && p.errno.OK?
    ensures var q := ValueState(p, v);
            && (q.errno.OK? <==> Decimal(v) && DecimalValue(v) <= MAX_DECIMAL)
            && (q.errno.OK? ==>
                  q == p.(state := Value, index := 0, contentLength := DecimalValue(v)) && q.contentLength < ULLONG_MAX)
            && (!q.errno.OK? ==> q.errno == INVALID_CONTENT_LENGTH)
  {
    hide Scaled;
    if |v| > 1 {
      var u, ch := v[..|v| - 1], v[|v| - 1];
      LengthIsExact(p, u);
      assert Decimal(v) ==> Decimal(u);
      if Decimal(u) {
        assert Decimal(v) <==> IsNum(ch) || ch == ' ' by { DecimalSnoc(u, ch); assert u + [ch] == v; }
        if IsNum(ch) {
          Below(DecimalValue(u), Digit(ch), 10);
        }
      }
    }
  }

  lemma DecimalSnoc(u: seq<Octet>, ch: Octet)
    requires Decimal(u)
    ensures Decimal(u + [ch]) <==> IsNum(ch) || ch == ' '
  {
    var v := u + [ch];
    assert v[|u|] == ch;
    assert forall i :: 0 <= i < |u| ==> v[i] == u[i];
  }
}
