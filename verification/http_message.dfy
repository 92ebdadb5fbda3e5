/** Whole messages: the parser applied to the text of a message reports that message. */
module HttpMessage {
  import opened HttpTypes
  import opened HttpStep
  import opened HttpRun
  import opened HttpFields

  /** A healthy run, `n` bytes further on, at record `p` and log `log`. */
  function At'(r: Run, p: Parser, log: seq<Event>, n: nat): Run { Run(p, log, r.consumed + n, false) }

  lemma FeedByte(hc: SkipBody, r: Run, ch: Octet)
    requires !Halted(r)
    ensures Feed(hc, r, [ch]) == Advance(hc, r, ch)
  {
    hide Advance;
    assert [ch][1..] == [];
  }

  /** A byte that changes the record and makes no callback. */
  lemma Quietly(hc: SkipBody, r: Run, ch: Octet, q: Parser)
    requires !Halted(r) && Turn(hc, r.p, ch) == Go(q) && q.errno.OK?
    ensures Feed(hc, r, [ch]) == At'(r, q, r.log, 1)
  {
    hide Turn;
    FeedByte(hc, r, ch);
  }

  /** A byte that makes one callback. */
  lemma Loudly(hc: SkipBody, r: Run, ch: Octet, q: Parser, e: Event)
    requires !Halted(r) && Turn(hc, r.p, ch) == Call(q, e) && q.errno.OK?
    ensures Feed(hc, r, [ch]) == At'(r, q, Append(r.log, e), 1)
  {
    hide Turn, Append;
    AppendOne(r.log, e);
    FeedByte(hc, r, ch);
  }

  // ---------- header lines ----------

  /** A line that goes on with the value: it begins with white space. */
  datatype Fold = Fold(text: seq<Octet>, end: seq<Octet>)

  /** `ws` is what comes before the value, `end` the end of its first line. Without a colon there is
      neither, but folds there may be. */
  datatype Header =
    Header(name: seq<Octet>, colon: bool, ws: seq<Octet>, value: seq<Octet>, end: seq<Octet>, folds: seq<Fold>)

  predicate NoBreak(s: seq<Octet>) { forall i :: 0 <= i < |s| ==> s[i] != CR && s[i] != LF }

  predicate IsWs(c: Octet) { c == ' ' || c == TAB }

  predicate IsBreak(s: seq<Octet>) { s == [CR, LF] || s == [LF] }

  /** White space before a value, also over line breaks that more of it follows. */
  predicate Lead(ws: seq<Octet>) {
    ws == [] ||
    if IsWs(ws[0]) then Lead(ws[1..])
    else if ws[0] == LF then |ws| > 1 && IsWs(ws[1]) && Lead(ws[2..])
    else |ws| > 2 && ws[0] == CR && ws[1] == LF && IsWs(ws[2]) && Lead(ws[3..])
  }

  predicate ValidFold(f: Fold) { f.text != [] && IsWs(f.text[0]) && NoBreak(f.text) && IsBreak(f.end) }

  predicate ValidFolds(fs: seq<Fold>) { forall i :: 0 <= i < |fs| ==> ValidFold(fs[i]) }

  predicate ValidHeader(h: Header) {
    && h.name != [] && Tokens(h.name) && IsBreak(h.end) && ValidFolds(h.folds)
    && if h.colon then Lead(h.ws) && ValidValue(h) else h.ws == [] && h.value == [] && ValidBare(h)
  }

  predicate ValidValue(h: Header) {
    && (if h.value == [] then h.folds == [] else !IsWs(h.value[0]) && NoBreak(h.value))
    && (Name(h.name) == "content-length" && h.value != [] ==>
          Decimal(h.value) && DecimalValue(h.value) <= MAX_DECIMAL && h.folds == [])
  }

  /** A line feed alone ends a name at once; after both bytes white space begins a value. */
  predicate ValidBare(h: Header) { h.folds != [] ==> h.end == [CR, LF] && Name(h.name) != "content-length" }

  function FoldTexts(fs: seq<Fold>): seq<Octet> {
    if fs == [] then [] else fs[0].text + fs[0].end + FoldTexts(fs[1..])
  }

  function FoldValues(fs: seq<Fold>): seq<Octet> { if fs == [] then [] else fs[0].text + FoldValues(fs[1..]) }

  /** The value as it is reported: the lines without their breaks. */
  function Whole(h: Header): seq<Octet> { h.value + FoldValues(h.folds) }

  function Mark(h: Header): seq<Octet> { if h.colon then [':'] else [] }

  function Line(h: Header): seq<Octet> { h.name + Mark(h) + h.ws + (h.value + h.end) + FoldTexts(h.folds) }

  lemma MatchLiteralNread(p: Parser, n: nat, c: Octet, lit: string, done: HeaderState)
    ensures MatchLiteral(p.(nread := n), c, lit, done) == MatchLiteral(p, c, lit, done).(nread := n)
  {
  }

  lemma FieldByteNread(p: Parser, ch: Octet, n: nat)
    ensures FieldByte(p.(nread := n), ch) == FieldByte(p, ch).(nread := n)
  {
    hide Token, MatchLiteral;
    var c := Token(ch);
    match p.headerState
    case MatchingConnection => MatchLiteralNread(p, n, c, CONNECTION, Connection);
    case MatchingProxyConnection => MatchLiteralNread(p, n, c, PROXY_CONNECTION, Connection);
    case MatchingContentLength => MatchLiteralNread(p, n, c, CONTENT_LENGTH, ContentLength);
    case MatchingTransferEncoding => MatchLiteralNread(p, n, c, TRANSFER_ENCODING, TransferEncoding);
    case MatchingUpgrade => MatchLiteralNread(p, n, c, UPGRADE, Upgrade);
    case _ =>
  }

  lemma {:induction false} NameStateInField(p: Parser, n: seq<Octet>)
    requires n != []
    ensures var q := NameState(p, n); q == p.(state := Field, index := q.index, headerState := q.headerState)
  {
    hide Token, FieldFirst;
    if |n| > 1 {
      NameStateInField(p, n[..|n| - 1]);
      FieldByteRest(NameState(p, n[..|n| - 1]), n[|n| - 1]);
    }
  }

  lemma FieldByteRest(p: Parser, ch: Octet)
    ensures var q := FieldByte(p, ch); q == p.(index := q.index, headerState := q.headerState)
  {
    hide Token;
  }

  /** A name sets no flags by itself. */
  lemma {:induction false} NamedFlags(p: Parser, n: seq<Octet>)
    requires n != []
    ensures FieldHeaderState(NameState(p, n).headerState)
  {
    hide Token;
    if |n| > 1 {
      NamedFlags(p, n[..|n| - 1]);
    }
  }

  /** The bytes of a field name, in s_header_field_start and s_header_field. */
  lemma {:induction false} NameRun(hc: SkipBody, r: Run, n: seq<Octet>)
    requires !Halted(r) && r.p.state.FieldStart? && n != [] && Tokens(n)
    requires r.p.nread + |n| <= MAX_HEADER_SIZE
    ensures Feed(hc, r, n) ==
            At'(r, NameState(r.p, n).(nread := r.p.nread + |n|), Append(r.log, Data(FieldData, n)), |n|)
  {
    hide Append, IsToken, Token, FieldByte, FieldFirst;
    var ch := n[|n| - 1];
    TokenIsNotSpace(ch);
    if |n| == 1 {
      assert n == [ch];
      Loudly(hc, r, ch, NameState(r.p, n).(nread := r.p.nread + 1), Data(FieldData, [ch]));
    } else {
      var u := n[..|n| - 1];
      assert u + [ch] == n;
      NameRun(hc, r, u);
      NameStateInField(r.p, u);
      var q := NameState(r.p, u);
      var s := Feed(hc, r, u);
      FieldByteNread(q, ch, s.p.nread);
      FieldByteRest(q, ch);
      NameStep(hc, s, ch, NameState(r.p, n).(nread := r.p.nread + |n|));
      FeedSplit(hc, r, u, [ch]);
      AppendData(r.log, FieldData, u, [ch]);
    }
  }

  lemma NameStep(hc: SkipBody, s: Run, ch: Octet, q: Parser)
    requires !Halted(s) && s.p.state.Field? && IsToken(ch) && s.p.nread < MAX_HEADER_SIZE
    requires q == (if s.p.headerState.General? then s.p else FieldByte(s.p, ch)).(nread := s.p.nread + 1)
    ensures Feed(hc, s, [ch]) == At'(s, q, Append(s.log, Data(FieldData, [ch])), 1)
  {
    hide Append, IsToken, FieldByte;
    FieldByteNread(s.p, ch, s.p.nread + 1);
    FieldByteRest(s.p, ch);
    Loudly(hc, s, ch, q, Data(FieldData, [ch]));
  }

  // ---------- values ----------

  lemma ValueByteNread(p: Parser, ch: Octet, n: nat)
    requires p.errno.OK?
    ensures var e := ValueByte(p, ch);
            && ValueByte(p.(nread := n), ch) == e.(p := e.p.(nread := n))
            && e.p ==
                 p.(index := e.p.index, headerState := e.p.headerState, contentLength := e.p.contentLength,
                    errno := e.p.errno)
            && e.events == [] && !e.exit
  {
    hide Lower, MatchLiteral, Scaled;
    var c := Lower(ch);
    MatchLiteralKeepsRest(p, c, CHUNKED, Chunked);
    MatchLiteralKeepsRest(p, c, KEEP_ALIVE, KeepAlive);
    MatchLiteralKeepsRest(p, c, CLOSE, Close);
    match p.headerState
    case MatchingChunked => MatchLiteralNread(p, n, c, CHUNKED, Chunked);
    case MatchingKeepAlive => MatchLiteralNread(p, n, c, KEEP_ALIVE, KeepAlive);
    case MatchingClose => MatchLiteralNread(p, n, c, CLOSE, Close);
    case _ =>
  }

  lemma {:induction false} ValueStateInValue(p: Parser, v: seq<Octet>)
    requires v != [] && p.errno.OK?
    ensures var q := ValueState(p, v);
            && q.state.Value? && q.nread == p.nread
            && (|v| > 1 && q.errno.OK? ==> ValueState(p, v[..|v| - 1]).errno.OK?)
  {
    hide Lower, ValueByte;
    if |v| > 1 {
      ValueStateInValue(p, v[..|v| - 1]);
      var q := ValueState(p, v[..|v| - 1]);
      if q.errno.OK? {
        ValueByteNread(q, v[|v| - 1], 0);
      }
    }
  }

  lemma ValueStartNread(p: Parser, ch: Octet, n: nat)
    ensures StepValueStart(p.(nread := n), ch).p == StepValueStart(p, ch).p.(nread := n)
    ensures var e := StepValueStart(p, ch);
            p.errno.OK? && e.p.errno.OK? ==> e == Call(e.p, Data(ValueData, [ch])) && e.p.state.Value?
    ensures StepValueStart(p.(nread := n), ch) == StepValueStart(p, ch).(p := StepValueStart(p, ch).p.(nread := n))
  {
    hide Lower;
  }

  /** The bytes of a header value that is accepted. */
  lemma {:induction false} ValueRun(hc: SkipBody, r: Run, v: seq<Octet>)
    requires !Halted(r) && r.p.state.ValueDiscardWs? && v != [] && !IsWs(v[0]) && NoBreak(v)
    requires r.p.nread + |v| <= MAX_HEADER_SIZE
    requires ValueState(r.p, v).errno.OK?
    ensures Feed(hc, r, v) ==
            At'(r, ValueState(r.p, v).(nread := r.p.nread + |v|), Append(r.log, Data(ValueData, v)), |v|)
    ensures ValueState(r.p, v).state.Value?
  {
    hide Append, Lower, ValueByte, StepValueStart;
    ValueStateInValue(r.p, v);
    var ch := v[|v| - 1];
    if |v| == 1 {
      assert v == [ch];
      ValueStartNread(r.p, ch, r.p.nread + 1);
      Loudly(hc, r, ch, ValueState(r.p, v).(nread := r.p.nread + 1), Data(ValueData, [ch]));
    } else {
      var u := v[..|v| - 1];
      assert u + [ch] == v;
      ValueRun(hc, r, u);
      var s := Feed(hc, r, u);
      ValueByteNread(ValueState(r.p, u), ch, s.p.nread);
      ValueStep(hc, s, ch, ValueState(r.p, v).(nread := r.p.nread + |v|));
      FeedSplit(hc, r, u, [ch]);
      AppendData(r.log, ValueData, u, [ch]);
    }
  }

  lemma ValueStep(hc: SkipBody, s: Run, ch: Octet, q: Parser)
    requires !Halted(s) && s.p.state.Value? && ch != CR && ch != LF && s.p.nread < MAX_HEADER_SIZE
    requires q == ValueByte(s.p, ch).p.(nread := s.p.nread + 1) && q.errno.OK?
    ensures Feed(hc, s, [ch]) == At'(s, q, Append(s.log, Data(ValueData, [ch])), 1)
  {
    hide Append, ValueByte;
    ValueByteNread(s.p, ch, s.p.nread + 1);
    Loudly(hc, s, ch, q, Data(ValueData, [ch]));
  }

  /** White space before a value. */
  lemma {:induction false} LeadRun(hc: SkipBody, r: Run, ws: seq<Octet>)
    requires !Halted(r) && r.p.state.ValueDiscardWs? && Lead(ws) && r.p.nread + |ws| <= MAX_HEADER_SIZE
    ensures Feed(hc, r, ws) == At'(r, r.p.(nread := r.p.nread + |ws|), r.log, |ws|)
    decreases |ws|
  {
    hide Advance;
    if ws != [] {
      var n := if IsWs(ws[0]) then 1 else if ws[0] == LF then 2 else 3;
      BlankRun(hc, r, ws[..n]);
      assert ws[..n] + ws[n..] == ws;
      FeedSplit(hc, r, ws[..n], ws[n..]);
      LeadRun(hc, Feed(hc, r, ws[..n]), ws[n..]);
    }
  }

  /** A white space character, with a line break before it or none. */
  lemma BlankRun(hc: SkipBody, r: Run, ws: seq<Octet>)
    requires !Halted(r) && r.p.state.ValueDiscardWs? && r.p.nread + |ws| <= MAX_HEADER_SIZE
    requires 1 <= |ws| <= 3 && IsWs(ws[|ws| - 1]) && (|ws| > 1 ==> IsBreak(ws[..|ws| - 1]))
    ensures Feed(hc, r, ws) == At'(r, r.p.(nread := r.p.nread + |ws|), r.log, |ws|)
  {
    hide Advance, Feed;
    var e, ch := ws[..|ws| - 1], ws[|ws| - 1];
    assert ws == e + [ch];
    if e == [] {
      assert ws == [ch];
      Quietly(hc, r, ch, r.p.(nread := r.p.nread + 1));
    } else {
      EmptyEnd(hc, r, e);
      FeedSplit(hc, r, e, [ch]);
      var s := Feed(hc, r, e);
      Quietly(hc, s, ch, r.p.(nread := r.p.nread + |ws|));
    }
  }

  /** A line break where a value would begin. */
  lemma EmptyEnd(hc: SkipBody, r: Run, e: seq<Octet>)
    requires !Halted(r) && r.p.state.ValueDiscardWs? && IsBreak(e) && r.p.nread + |e| <= MAX_HEADER_SIZE
    ensures Feed(hc, r, e) == At'(r, r.p.(state := ValueDiscardLws, nread := r.p.nread + |e|), r.log, |e|)
  {
    hide Feed;
    if e == [LF] {
      EmptyLf(hc, r);
    } else {
      EmptyCr(hc, r);
      EmptyLf(hc, Feed(hc, r, [CR]));
      FeedSplit(hc, r, [CR], [LF]);
      assert [CR] + [LF] == [CR, LF];
    }
  }

  lemma EmptyCr(hc: SkipBody, r: Run)
    requires !Halted(r) && r.p.state.ValueDiscardWs? && r.p.nread < MAX_HEADER_SIZE
    ensures Feed(hc, r, [CR]) == At'(r, r.p.(state := ValueDiscardWsAlmostDone, nread := r.p.nread + 1), r.log, 1)
  {
    Quietly(hc, r, CR, r.p.(state := ValueDiscardWsAlmostDone, nread := r.p.nread + 1));
  }

  lemma EmptyLf(hc: SkipBody, r: Run)
    requires !Halted(r) && (r.p.state.ValueDiscardWs? || r.p.state.ValueDiscardWsAlmostDone?)
    requires r.p.nread < MAX_HEADER_SIZE
    ensures Feed(hc, r, [LF]) == At'(r, r.p.(state := ValueDiscardLws, nread := r.p.nread + 1), r.log, 1)
  {
    Quietly(hc, r, LF, r.p.(state := ValueDiscardLws, nread := r.p.nread + 1));
  }

  // ---------- what a header line means ----------

  /** The record before the value of a header. */
  function Named(p: Parser, h: Header): Parser
    requires h.name != []
  {
    NameState(p, h.name).(state := ValueDiscardWs)
  }

  /** The record at the end of a header line, when the next byte may still continue the value: a
      line that goes on with it makes it mean nothing. */
  function LineState(p: Parser, h: Header): Parser
    requires h.name != []
  {
    var q := Named(p, h);
    (if !h.colon then Bare(NameState(p, h.name), h)
     else if h.value == [] then q.(state := ValueDiscardLws)
     else Folded(ValueState(q, h.value), h.folds))
    .(nread := p.nread + |Line(h)|)
  }

  /** The record at the end of a line without a colon. */
  function Bare(q: Parser, h: Header): Parser {
    if h.folds != [] then Refolded(q).(state := ValueLws)
    else q.(state := if h.end == [LF] then FieldStart else ValueLws)
  }

  /** White space after the end of a line starts a value again: only the name Upgrade still means something. */
  function Refolded(q: Parser): Parser {
    q.(index := 0, headerState := General,
       flags := if q.headerState == Upgrade then q.flags.(upgrade := true) else q.flags)
  }

  /** The record at the end of a value that is not empty. */
  function Folded(q: Parser, fs: seq<Fold>): Parser {
    if fs == [] then q.(state := ValueLws) else q.(state := ValueLws, index := 0, headerState := General)
  }

  /** The record once the next byte turns out not to continue the value. */
  function Settled(p: Parser): Parser { p.(flags := HeaderFlags(p), state := FieldStart) }

  /** The flags and the length that a list of headers stands for. */
  datatype Framing = Framing(flags: Flags, contentLength: nat)

  function HeaderMeaning(f: Framing, h: Header): Framing
    requires ValidHeader(h)
  {
    var w := Name(h.name);
    if !h.colon then (if w == "upgrade" && h.folds != [] then f.(flags := f.flags.(upgrade := true)) else f)
    else if h.value == [] then f
    else if w == "upgrade" then f.(flags := f.flags.(upgrade := true))
    else if w == "content-length" then f.(contentLength := DecimalValue(h.value))
    else if h.folds != [] then f
    else if w == "transfer-encoding" then
      f.(flags := f.flags.(chunked := f.flags.chunked || Word(h.value, "chunked")))
    else if w == "connection" || w == "proxy-connection" then
      f.(flags := f.flags.(keepAlive := f.flags.keepAlive || Word(h.value, "keep-alive"),
                           close := f.flags.close || Word(h.value, "close")))
    else f
  }

  /** A value whose name means nothing leaves only its bytes. */
  lemma {:induction false} OtherValue(p: Parser, v: seq<Octet>)
    requires v != [] && p.errno.OK?
    requires p.headerState != ContentLength && p.headerState != TransferEncoding && p.headerState != Connection
    ensures ValueState(p, v) ==
            p.(state := Value, index := 0, headerState := General,
               flags := if p.headerState == Upgrade then p.flags.(upgrade := true) else p.flags)
  {
    hide Lower;
    if |v| > 1 {
      OtherValue(p, v[..|v| - 1]);
    }
  }

  /** The only lasting effect of a header line on the record is its meaning. */
  lemma LineMeaning(p: Parser, h: Header)
    requires ValidHeader(h) && p.errno.OK?
    ensures h.colon && h.value != [] ==> ValueIsRead(Named(p, h), h)
    ensures var q := Settled(LineState(p, h));
            var f := HeaderMeaning(Framing(p.flags, p.contentLength), h);
            q == p.(flags := f.flags, contentLength := f.contentLength, state := FieldStart,
                    nread := p.nread + |Line(h)|,
                    index := q.index, headerState := q.headerState)
  {
    hide Name, NameState, ValueState, Decimal, DecimalValue, Word, NoBreak, Line, Lead, ValidFolds, Tokens, ValueIsRead;
    NameRecognized(p, h.name);
    NameStateInField(p, h.name);
    NamedFlags(p, h.name);
    if !h.colon {
      BareMeaning(p, h);
    } else if h.value != [] {
      ValueMeaning(p, h, Named(p, h), ValueState(Named(p, h), h.value));
      MeaningHolds(p, h, Named(p, h), ValueState(Named(p, h), h.value));
    }
  }

  lemma BareMeaning(p: Parser, h: Header)
    requires ValidHeader(h) && p.errno.OK? && !h.colon
    ensures var q := Settled(LineState(p, h));
            var f := HeaderMeaning(Framing(p.flags, p.contentLength), h);
            q == p.(flags := f.flags, contentLength := f.contentLength, state := FieldStart,
                    nread := p.nread + |Line(h)|,
                    index := q.index, headerState := q.headerState)
  {
    NameRecognized(p, h.name);
    NameStateInField(p, h.name);
    NamedFlags(p, h.name);
    hide Name, NameState, ValueState, Line, Lead, ValidFolds, Tokens, ValidValue;
    BareFlags(NameState(p, h.name), h);
    hide HeaderFlags;
  }

  lemma BareFlags(q: Parser, h: Header)
    requires FieldHeaderState(q.headerState)
    ensures HeaderFlags(Bare(q, h)) == if h.folds != [] then Refolded(q).flags else q.flags
    ensures HeaderFlags(Bare(q, h).(nread := q.nread + |Line(h)|)) == HeaderFlags(Bare(q, h))
  {
    hide Line;
  }

  /** The record after the first line of a value that is accepted. */
  predicate ReadInto(q: Parser, v: Parser) {
    && v.errno.OK? && ValueHeaderState(v.headerState)
    && v ==
         q.(flags := v.flags, contentLength := v.contentLength, state := Value, index := v.index,
            headerState := v.headerState)
  }

  lemma WordMeaning(q: Parser, value: seq<Octet>)
    requires value != [] && q.errno.OK? && (q.headerState == TransferEncoding || q.headerState == Connection)
    ensures var v := ValueState(q, value);
            && ReadInto(q, v) && v.flags == q.flags && v.contentLength == q.contentLength
            && !v.headerState.ContentLength?
            && HeaderFlags(v) ==
               if q.headerState == TransferEncoding then q.flags.(chunked := q.flags.chunked || Word(value, CHUNKED))
               else q.flags.(keepAlive := q.flags.keepAlive || Word(value, KEEP_ALIVE),
                             close := q.flags.close || Word(value, CLOSE))
  {
    hide ValueState, Word, WordStands, HeaderFlags;
    FlagsRecognized(q, value);
    if q.headerState == TransferEncoding {
      ChunkedRecognized(q, value);
    } else {
      ConnectionRecognized(q, value);
    }
  }

  lemma LengthMeaning(q: Parser, value: seq<Octet>)
    requires value != [] && q.errno.OK? && q.headerState == ContentLength
    requires Decimal(value) && DecimalValue(value) <= MAX_DECIMAL
    ensures var v := ValueState(q, value);
            ReadInto(q, v) && HeaderFlags(v) == v.flags == q.flags && v.contentLength == DecimalValue(value)
  {
    hide ValueState, Decimal, DecimalValue;
    LengthIsExact(q, value);
  }

  lemma OtherMeaning(q: Parser, value: seq<Octet>)
    requires value != [] && q.errno.OK?
    requires q.headerState != ContentLength && q.headerState != TransferEncoding && q.headerState != Connection
    ensures var v := ValueState(q, value);
            && ReadInto(q, v) && v.headerState.General? && v.contentLength == q.contentLength
            && v.flags == if q.headerState == Upgrade then q.flags.(upgrade := true) else q.flags
  {
    hide ValueState;
    OtherValue(q, value);
  }

  /** That record means what the header means, unless a fold follows. */
  lemma ValueMeaning(p: Parser, h: Header, q: Parser, v: Parser)
    requires ValidHeader(h) && h.colon && p.errno.OK? && h.value != [] && q == Named(p, h)
             && v == ValueState(q, h.value)
    requires q == p.(state := ValueDiscardWs, index := q.index, headerState := q.headerState)
    ensures ValueIsRead(q, h) && ReadInto(q, v)
    ensures var f := HeaderMeaning(Framing(p.flags, p.contentLength), h);
            HeaderFlags(Folded(v, h.folds)) == f.flags && v.contentLength == f.contentLength
  {
    hide Name, NameState, ValueState, Decimal, DecimalValue, Word, NoBreak, Line, Lead, ValidFolds, Tokens, ReadInto;
    NameRecognized(p, h.name);
    FoldedFlags(v, h.folds);
    if q.headerState == ContentLength {
      LengthMeaning(q, h.value);
    } else if q.headerState == TransferEncoding || q.headerState == Connection {
      WordMeaning(q, h.value);
    } else {
      OtherMeaning(q, h.value);
    }
    ReadFacts(q, v);
  }

  lemma ReadFacts(q: Parser, v: Parser)
    ensures ReadInto(q, v) ==> v.errno.OK? && ValueHeaderState(v.headerState)
  {
  }

  lemma FoldedFlags(v: Parser, fs: seq<Fold>)
    ensures HeaderFlags(Folded(v, fs)) == if fs == [] then HeaderFlags(v) else v.flags
    ensures v.headerState.General? ==> HeaderFlags(v) == v.flags
  {
  }

  /** The value is accepted, and its header state is one that a fold ends. */
  predicate ValueIsRead(p: Parser, h: Header)
    requires h.value != []
  {
    var q := ValueState(p, h.value);
    q.errno.OK? && ValueHeaderState(q.headerState) && (h.folds != [] ==> !q.headerState.ContentLength?)
  }

  lemma MeaningHolds(p: Parser, h: Header, q: Parser, v: Parser)
    requires ValidHeader(h) && h.colon && p.errno.OK? && q == Named(p, h) && h.value != []
             && v == ValueState(q, h.value)
    requires q == p.(state := ValueDiscardWs, index := q.index, headerState := q.headerState)
    requires ReadInto(q, v)
    requires var f := HeaderMeaning(Framing(p.flags, p.contentLength), h);
             HeaderFlags(Folded(v, h.folds)) == f.flags && v.contentLength == f.contentLength
    ensures var q := Settled(LineState(p, h));
            var f := HeaderMeaning(Framing(p.flags, p.contentLength), h);
            q == p.(flags := f.flags, contentLength := f.contentLength, state := FieldStart,
                    nread := p.nread + |Line(h)|,
                    index := q.index, headerState := q.headerState)
  {
    hide HeaderMeaning, NameState, ValueState, ValidHeader, Line;
  }

  lemma LineLength(h: Header)
    ensures |Line(h)| == |h.name| + |Mark(h)| + |h.ws| + |h.value| + |h.end| + |FoldTexts(h.folds)|
    ensures Line(h) == (h.name + Mark(h) + h.ws) + ((h.value + h.end) + FoldTexts(h.folds))
    ensures !h.colon && h.ws == [] && h.value == [] ==> Line(h) == (h.name + h.end) + FoldTexts(h.folds)
  {
  }

  /** The callbacks of a header line up to its end; that of an empty value is made by the next byte. */
  function LineLog(log: seq<Event>, h: Header): seq<Event> {
    var l := Append(log, Data(FieldData, h.name));
    if h.value == [] && h.folds == [] then l else Append(l, Data(ValueData, Whole(h)))
  }

  /** The bytes of a header line. */
  lemma LineRun(hc: SkipBody, r: Run, h: Header)
    requires !Halted(r) && r.p.state.FieldStart? && ValidHeader(h)
    requires r.p.nread + |Line(h)| <= MAX_HEADER_SIZE
    ensures Feed(hc, r, Line(h)) == At'(r, LineState(r.p, h), LineLog(r.log, h), |Line(h)|)
  {
    if h.colon {
      hide *;
      ColonRun(hc, r, h);
    } else {
      hide *;
      BareRun(hc, r, h);
    }
  }

  lemma ColonRun(hc: SkipBody, r: Run, h: Header)
    requires !Halted(r) && r.p.state.FieldStart? && ValidHeader(h) && h.colon
    requires r.p.nread + |Line(h)| <= MAX_HEADER_SIZE
    ensures Feed(hc, r, Line(h)) == At'(r, LineState(r.p, h), LineLog(r.log, h), |Line(h)|)
  {
    hide Append, NameState, ValueState, HeaderMeaning, Tokens, Advance, Line, Decimal, DecimalValue, Name, NoBreak,
         Lead;
    hide FoldTexts, FoldValues, Feed;
    LineLength(h);
    LineMeaning(r.p, h);
    NameStateInField(r.p, h.name);
    NamePart(hc, r, h);
    var a, v := h.name + Mark(h) + h.ws, h.value + h.end;
    var r2 := Feed(hc, r, a);
    FeedSplit(hc, r, a, v + FoldTexts(h.folds));
    if h.value == [] {
      assert v + FoldTexts(h.folds) == h.end by { NoFolds(h.folds); }
      EmptyEnd(hc, r2, h.end);
    } else {
      ValuePart(hc, r2, h, Named(r.p, h));
      FeedSplit(hc, r2, v, FoldTexts(h.folds));
      var l := Append(r.log, Data(FieldData, h.name));
      FoldsRun(hc, Feed(hc, r2, v), l, h.value, h.folds);
    }
  }

  lemma BareRun(hc: SkipBody, r: Run, h: Header)
    requires !Halted(r) && r.p.state.FieldStart? && ValidHeader(h) && !h.colon
    requires r.p.nread + |Line(h)| <= MAX_HEADER_SIZE
    ensures Feed(hc, r, Line(h)) == At'(r, LineState(r.p, h), LineLog(r.log, h), |Line(h)|)
  {
    hide *;
    RunIs(r);
    BareIs(r.p, r.log, h);
    NoFolds(h.folds);
    BareName(hc, r, h);
    var q := NamedBare(r.p, h);
    var r2 := Feed(hc, r, h.name + h.end);
    FeedSplit(hc, r, h.name + h.end, FoldTexts(h.folds));
    if h.folds == [] {
      FeedNone(hc, r2);
    } else {
      FoldsHealthy(r, q, Append(r.log, Data(FieldData, h.name)), |h.name| + |h.end|);
      BareFolds(hc, r2, h.folds);
      FoldsAfter(r, q, Append(r.log, Data(FieldData, h.name)), |h.name| + |h.end|, |FoldTexts(h.folds)|,
                 Append(Append(r.log, Data(FieldData, h.name)), Data(ValueData, FoldValues(h.folds))));
    }
  }

  lemma RunIs(r: Run)
    ensures Halted(r) <==> r.stopped || !r.p.errno.OK?
  {
  }

  lemma FoldsHealthy(r: Run, q: Parser, log: seq<Event>, n: nat)
    ensures At'(r, q, log, n).p == q && At'(r, q, log, n).log == log && (q.errno.OK? ==> !Halted(At'(r, q, log, n)))
  {
  }

  lemma FoldsAfter(r: Run, q: Parser, log: seq<Event>, n: nat, m: nat, log': seq<Event>)
    ensures At'(At'(r, q, log, n), Refolded(q).(nread := q.nread + m), log', m) ==
            At'(r, Refolded(q).(nread := q.nread + m), log', n + m)
  {
  }

  /** The record after a name and the end of its line. */
  function NamedBare(p: Parser, h: Header): Parser
    requires h.name != []
  {
    NameState(p, h.name).(state := if h.end == [LF] then FieldStart
                          else ValueLws, nread := p.nread + |h.name| + |h.end|)
  }

  lemma BareIs(p: Parser, log: seq<Event>, h: Header)
    requires ValidHeader(h) && !h.colon && p.errno.OK?
    ensures h.name != [] && |Line(h)| == |h.name| + |h.end| + |FoldTexts(h.folds)| && ValidFolds(h.folds)
    ensures Line(h) == (h.name + h.end) + FoldTexts(h.folds)
    ensures var q, l := NamedBare(p, h), Append(log, Data(FieldData, h.name));
            && q.errno.OK? && q.nread == p.nread + |h.name| + |h.end|
            && LineState(p, h) == (if h.folds == [] then q else Refolded(q).(nread := q.nread + |FoldTexts(h.folds)|))
            && LineLog(log, h) == (if h.folds == [] then l else Append(l, Data(ValueData, FoldValues(h.folds))))
            && (h.folds != [] ==> q.state.ValueLws? && !q.headerState.ContentLength?)
  {
    LineLength(h);
    NameRecognized(p, h.name);
    NameStateInField(p, h.name);
    hide Append, NameState, ValueState, Tokens, Line, Name, FoldTexts, FoldValues, ValidFolds, ValidValue;
    assert Whole(h) == FoldValues(h.folds);
  }

  lemma BareName(hc: SkipBody, r: Run, h: Header)
    requires !Halted(r) && r.p.state.FieldStart? && ValidHeader(h) && !h.colon
    requires r.p.nread + |h.name| + |h.end| <= MAX_HEADER_SIZE
    ensures Feed(hc, r, h.name + h.end) ==
            At'(r, NamedBare(r.p, h), Append(r.log, Data(FieldData, h.name)), |h.name| + |h.end|)
  {
    hide Append, NameState, Tokens, Feed, ValidFolds, ValidBare;
    NameStateInField(r.p, h.name);
    NameRun(hc, r, h.name);
    BareEnd(hc, Feed(hc, r, h.name), r.log, h.name, h.end);
    FeedSplit(hc, r, h.name, h.end);
  }

  /** The end of a name that no colon follows. */
  lemma BareEnd(hc: SkipBody, r: Run, log: seq<Event>, n: seq<Octet>, e: seq<Octet>)
    requires !Halted(r) && r.p.state.Field? && IsBreak(e) && r.p.nread + |e| <= MAX_HEADER_SIZE
    requires r.log == Append(log, Data(FieldData, n))
    ensures Feed(hc, r, e) ==
            At'(r, r.p.(state := if e == [LF] then FieldStart else ValueLws, nread := r.p.nread + |e|), r.log, |e|)
  {
    hide Append, Feed;
    AppendData(log, FieldData, n, []);
    assert n + [] == n;
    if e == [LF] {
      Loudly(hc, r, LF, r.p.(state := FieldStart, nread := r.p.nread + 1), Data(FieldData, []));
    } else {
      Loudly(hc, r, CR, r.p.(state := HeaderAlmostDone, nread := r.p.nread + 1), Data(FieldData, []));
      Newline(hc, Feed(hc, r, [CR]), r.p.(state := ValueLws, nread := r.p.nread + 2));
      FeedSplit(hc, r, [CR], [LF]);
      assert [CR] + [LF] == [CR, LF];
    }
  }

  /** Lines that bring a value after all. */
  lemma BareFolds(hc: SkipBody, r: Run, fs: seq<Fold>)
    requires !Halted(r) && r.p.state.ValueLws? && ValidFolds(fs) && fs != [] && !r.p.headerState.ContentLength?
    requires r.p.nread + |FoldTexts(fs)| <= MAX_HEADER_SIZE
    ensures Feed(hc, r, FoldTexts(fs)) ==
            At'(r, Refolded(r.p).(nread := r.p.nread + |FoldTexts(fs)|), Append(r.log, Data(ValueData, FoldValues(fs))),
                |FoldTexts(fs)|)
  {
    hide Append, Feed, ValidFold, ValidFolds, FoldTexts, FoldValues, IsBreak;
    var f, rest := fs[0], fs[1..];
    FoldsAre(fs);
    FoldText(hc, r, f);
    FeedSplit(hc, r, f.text, f.end);
    ValueEnd(hc, Feed(hc, r, f.text), r.log, f.text, f.end);
    var r1 := Feed(hc, r, f.text + f.end);
    FoldsRun(hc, r1, r.log, f.text, rest);
    FeedSplit(hc, r, f.text + f.end, FoldTexts(rest));
  }

  lemma FoldsAre(fs: seq<Fold>)
    requires ValidFolds(fs) && fs != []
    ensures ValidFold(fs[0]) && IsBreak(fs[0].end) && ValidFolds(fs[1..])
    ensures FoldTexts(fs) == (fs[0].text + fs[0].end) + FoldTexts(fs[1..])
    ensures FoldValues(fs) == fs[0].text + FoldValues(fs[1..])
  {
  }

  lemma NoFolds(fs: seq<Fold>)
    ensures fs == [] ==> FoldTexts(fs) == [] && FoldValues(fs) == []
  {
  }

  lemma NamePart(hc: SkipBody, r: Run, h: Header)
    requires !Halted(r) && r.p.state.FieldStart? && ValidHeader(h) && h.colon
    requires r.p.nread + |h.name| + 1 + |h.ws| <= MAX_HEADER_SIZE
    ensures Feed(hc, r, h.name + Mark(h) + h.ws) ==
            At'(r, Named(r.p, h).(nread := r.p.nread + |h.name| + 1 + |h.ws|), Append(r.log, Data(FieldData, h.name)),
                |h.name| + 1 + |h.ws|)
  {
    hide Append, NameState, Tokens, Advance;
    NameRun(hc, r, h.name);
    NameStateInField(r.p, h.name);
    var r1 := Feed(hc, r, h.name);
    var q := Named(r.p, h).(nread := r.p.nread + |h.name| + 1);
    Colon(hc, r1, q);
    AppendData(r.log, FieldData, h.name, []);
    assert h.name + [] == h.name;
    FeedSplit(hc, r, h.name, [':']);
    var r2 := Feed(hc, r, h.name + [':']);
    LeadRun(hc, r2, h.ws);
    FeedSplit(hc, r, h.name + [':'], h.ws);
  }

  lemma Colon(hc: SkipBody, r: Run, q: Parser)
    requires !Halted(r) && r.p.state.Field? && r.p.nread < MAX_HEADER_SIZE
    requires q == r.p.(state := ValueDiscardWs, nread := r.p.nread + 1)
    ensures Feed(hc, r, [':']) == At'(r, q, Append(r.log, Data(FieldData, [])), 1)
  {
    hide Append;
    Loudly(hc, r, ':', q, Data(FieldData, []));
  }

  lemma ValuePart(hc: SkipBody, r: Run, h: Header, p: Parser)
    requires !Halted(r) && r.p.state.ValueDiscardWs? && ValidHeader(h) && h.colon && h.value != []
    requires p.errno.OK? && r.p == p.(nread := r.p.nread) && r.p.nread + |h.value| + |h.end| <= MAX_HEADER_SIZE
    requires ValueState(p, h.value).errno.OK?
    ensures Feed(hc, r, h.value + h.end) ==
            At'(r, ValueState(p, h.value).(state := ValueLws, nread := r.p.nread + |h.value| + |h.end|),
                Append(r.log, Data(ValueData, h.value)), |h.value| + |h.end|)
  {
    hide Append, ValueState, Advance, Tokens, Name, Decimal, DecimalValue, Lead, ValidFolds;
    ValueStateNread(p, h.value, r.p.nread);
    ValueRun(hc, r, h.value);
    var r3 := Feed(hc, r, h.value);
    ValueEnd(hc, r3, r.log, h.value, h.end);
    FeedSplit(hc, r, h.value, h.end);
  }

  lemma ValueEnd(hc: SkipBody, r: Run, log: seq<Event>, v: seq<Octet>, e: seq<Octet>)
    requires !Halted(r) && r.p.state.Value? && IsBreak(e) && r.p.nread + |e| <= MAX_HEADER_SIZE
    requires r.log == Append(log, Data(ValueData, v))
    ensures Feed(hc, r, e) == At'(r, r.p.(state := ValueLws, nread := r.p.nread + |e|), r.log, |e|)
  {
    hide Append, Feed;
    AppendData(log, ValueData, v, []);
    assert v + [] == v;
    if e == [LF] {
      Loudly(hc, r, LF, r.p.(state := ValueLws, nread := r.p.nread + 1), Data(ValueData, []));
    } else {
      Loudly(hc, r, CR, r.p.(state := HeaderAlmostDone, nread := r.p.nread + 1), Data(ValueData, []));
      var r1 := Feed(hc, r, [CR]);
      Newline(hc, r1, r.p.(state := ValueLws, nread := r.p.nread + 2));
      FeedSplit(hc, r, [CR], [LF]);
      assert [CR] + [LF] == [CR, LF];
    }
  }

  lemma Newline(hc: SkipBody, r: Run, q: Parser)
    requires !Halted(r) && r.p.state.HeaderAlmostDone? && r.p.nread < MAX_HEADER_SIZE
    requires q == r.p.(state := ValueLws, nread := r.p.nread + 1)
    ensures Feed(hc, r, [LF]) == At'(r, q, r.log, 1)
  {
    Quietly(hc, r, LF, q);
  }

  // ---------- lines that go on with a value ----------

  /** The first byte of such a line starts the value again, and whatever its name meant is forgotten. */
  lemma FoldStart(hc: SkipBody, r: Run, ch: Octet, q: Parser)
    requires !Halted(r) && r.p.state.ValueLws? && IsWs(ch) && r.p.nread < MAX_HEADER_SIZE
    requires !r.p.headerState.ContentLength?
    requires q == Refolded(r.p).(state := Value, nread := r.p.nread + 1)
    ensures Feed(hc, r, [ch]) == At'(r, q, Append(r.log, Data(ValueData, [ch])), 1)
  {
    hide Append;
    WsStarts(r.p.(state := ValueStart, nread := r.p.nread + 1), ch);
    hide StepValueStart, Refolded;
    Loudly(hc, r, ch, q, Data(ValueData, [ch]));
  }

  lemma WsStarts(p: Parser, ch: Octet)
    requires IsWs(ch) && !p.headerState.ContentLength?
    ensures StepValueStart(p, ch) == Call(Refolded(p).(state := Value), Data(ValueData, [ch]))
  {
    assert Lower(ch) != 'c' && Lower(ch) != 'k';
  }

  lemma {:induction false} GeneralRun(hc: SkipBody, r: Run, v: seq<Octet>)
    requires !Halted(r) && r.p.state.Value? && r.p.headerState.General? && NoBreak(v) && v != []
    requires r.p.nread + |v| <= MAX_HEADER_SIZE
    ensures Feed(hc, r, v) == At'(r, r.p.(nread := r.p.nread + |v|), Append(r.log, Data(ValueData, v)), |v|)
    decreases |v|
  {
    hide Append, Advance;
    ValueStep(hc, r, v[0], r.p.(nread := r.p.nread + 1));
    if |v| == 1 {
      assert v == [v[0]];
    } else {
      assert [v[0]] + v[1..] == v;
      FeedSplit(hc, r, [v[0]], v[1..]);
      GeneralRun(hc, Feed(hc, r, [v[0]]), v[1..]);
      AppendData(r.log, ValueData, [v[0]], v[1..]);
    }
  }

  lemma FoldText(hc: SkipBody, r: Run, f: Fold)
    requires !Halted(r) && r.p.state.ValueLws? && ValidFold(f) && r.p.nread + |f.text| <= MAX_HEADER_SIZE
    requires !r.p.headerState.ContentLength?
    ensures Feed(hc, r, f.text) ==
            At'(r, Refolded(r.p).(state := Value, nread := r.p.nread + |f.text|),
                Append(r.log, Data(ValueData, f.text)), |f.text|)
  {
    hide Append, Advance, Feed;
    var t := f.text;
    FoldStart(hc, r, t[0], Refolded(r.p).(state := Value, nread := r.p.nread + 1));
    if |t| == 1 {
      assert t == [t[0]];
    } else {
      assert [t[0]] + t[1..] == t;
      FeedSplit(hc, r, [t[0]], t[1..]);
      GeneralRun(hc, Feed(hc, r, [t[0]]), t[1..]);
      AppendData(r.log, ValueData, [t[0]], t[1..]);
    }
  }

  lemma FoldRun(hc: SkipBody, r: Run, log: seq<Event>, v: seq<Octet>, f: Fold)
    requires !Halted(r) && r.p.state.ValueLws? && ValidFold(f) && r.p.nread + |f.text| + |f.end| <= MAX_HEADER_SIZE
    requires ValueHeaderState(r.p.headerState) && !r.p.headerState.ContentLength?
    requires r.log == Append(log, Data(ValueData, v))
    ensures Feed(hc, r, f.text + f.end) ==
            At'(r, r.p.(index := 0, headerState := General, nread := r.p.nread + |f.text| + |f.end|),
                Append(log, Data(ValueData, v + f.text)), |f.text| + |f.end|)
  {
    hide Append, Advance, Feed;
    FoldText(hc, r, f);
    AppendData(log, ValueData, v, f.text);
    FeedSplit(hc, r, f.text, f.end);
    ValueEnd(hc, Feed(hc, r, f.text), log, v + f.text, f.end);
  }

  lemma {:induction false} FoldsRun(hc: SkipBody, r: Run, log: seq<Event>, v: seq<Octet>, fs: seq<Fold>)
    requires !Halted(r) && r.p.state.ValueLws? && ValidFolds(fs) && r.p.nread + |FoldTexts(fs)| <= MAX_HEADER_SIZE
    requires fs != [] ==> ValueHeaderState(r.p.headerState) && !r.p.headerState.ContentLength?
    requires r.log == Append(log, Data(ValueData, v))
    ensures Feed(hc, r, FoldTexts(fs)) ==
            At'(r, Folded(r.p, fs).(nread := r.p.nread + |FoldTexts(fs)|),
                Append(log, Data(ValueData, v + FoldValues(fs))),
                |FoldTexts(fs)|)
    decreases |fs|
  {
    hide Append, Advance, ValidFold;
    if fs == [] {
      assert v + [] == v;
    } else {
      var f := fs[0];
      FoldRun(hc, r, log, v, f);
      FeedSplit(hc, r, f.text + f.end, FoldTexts(fs[1..]));
      FoldsRun(hc, Feed(hc, r, f.text + f.end), log, v + f.text, fs[1..]);
      assert v + f.text + FoldValues(fs[1..]) == v + FoldValues(fs);
    }
  }

  lemma {:induction false} ValueStateNread(p: Parser, v: seq<Octet>, n: nat)
    requires v != [] && p.errno.OK?
    ensures ValueState(p.(nread := n), v) == ValueState(p, v).(nread := n)
  {
    hide StepValueStart, ValueByte;
    if |v| == 1 {
      ValueStartNread(p, v[0], n);
    } else {
      ValueStateNread(p, v[..|v| - 1], n);
      var q := ValueState(p, v[..|v| - 1]);
      if q.errno.OK? {
        ValueByteNread(q, v[|v| - 1], n);
      }
    }
  }
}
