/** The end of the headers and the body: content lengths, chunked coding (section 3.6.1 of RFC 2616)
    and bodies that end with the connection. */
module HttpFraming {
  import opened HttpTypes
  import opened HttpStep
  import opened HttpRun
  import opened HttpBulk
  import opened HttpFields
  import opened HttpMessage

  predicate ValidHeaders(hs: seq<Header>) { forall i :: 0 <= i < |hs| ==> ValidHeader(hs[i]) }

  function Lines(hs: seq<Header>): seq<Octet> {
    if hs == [] then [] else Line(hs[0]) + Lines(hs[1..])
  }

  /** The callbacks of one line: a line without a colon may bring no value. */
  function LineEvents(h: Header): seq<Event> {
    [Data(FieldData, h.name)] + if h.colon || h.folds != [] then [Data(ValueData, Whole(h))] else []
  }

  function HeaderEvents(hs: seq<Header>): seq<Event> {
    if hs == [] then [] else LineEvents(hs[0]) + HeaderEvents(hs[1..])
  }

  function Meaning(f: Framing, hs: seq<Header>): Framing
    requires ValidHeaders(hs)
    decreases |hs|
  {
    if hs == [] then f else Meaning(HeaderMeaning(f, hs[0]), hs[1..])
  }

  /** The record after some header lines. */
  function After(p: Parser, hs: seq<Header>): Parser
    requires ValidHeaders(hs)
    decreases |hs|
  {
    if hs == [] then p else After(Settled(LineState(p, hs[0])), hs[1..])
  }

  lemma {:induction false} AfterMeaning(p: Parser, hs: seq<Header>)
    requires ValidHeaders(hs) && p.errno.OK? && p.state.FieldStart?
    ensures var q := After(p, hs);
            var f := Meaning(Framing(p.flags, p.contentLength), hs);
            q == p.(flags := f.flags, contentLength := f.contentLength, nread := p.nread + |Lines(hs)|,
                    index := q.index, headerState := q.headerState)
    decreases |hs|
  {
    hide HeaderMeaning, LineState, Settled, Line, Lead, ValidFolds, Tokens, NoBreak, Decimal, DecimalValue, Name,
         ValueIsRead;
    if hs != [] {
      LineMeaning(p, hs[0]);
      AfterMeaning(Settled(LineState(p, hs[0])), hs[1..]);
    }
  }

  /** A name that a line feed alone ends is settled at once. */
  predicate AtLineEnd(s: State) { s.ValueLws? || s.ValueDiscardLws? || s.FieldStart? }

  /** The callbacks once the next byte turns out not to continue the value: one for an empty value. */
  function SettledLog(p: Parser, log: seq<Event>): seq<Event> {
    if p.state.ValueDiscardLws? then Append(log, Data(ValueData, [])) else log
  }

  lemma SettledTurn(hc: SkipBody, p: Parser, ch: Octet)
    requires (p.state.ValueLws? || p.state.ValueDiscardLws?) && !IsWs(ch) && p.nread < MAX_HEADER_SIZE
    requires p.state.ValueDiscardLws? ==> HeaderFlags(p) == p.flags
    ensures var e := Turn(hc, Settled(p), ch);
            Turn(hc, p, ch) == if p.state.ValueDiscardLws? then e.(events := [Data(ValueData, [])] + e.events) else e
    ensures Settled(p).errno == p.errno
  {
    hide StepFieldStart;
  }

  /** A byte that does not continue a header value settles the header. */
  lemma Settle(hc: SkipBody, r: Run, bytes: seq<Octet>)
    requires !Halted(r) && AtLineEnd(r.p.state) && bytes != [] && !IsWs(bytes[0]) && r.p.nread < MAX_HEADER_SIZE
    requires !r.p.state.ValueLws? ==> HeaderFlags(r.p) == r.p.flags
    ensures Feed(hc, r, bytes) == Feed(hc, r.(p := Settled(r.p), log := SettledLog(r.p, r.log)), bytes)
  {
    if r.p.state.FieldStart? {
      assert Settled(r.p) == r.p;
    } else {
      SettledTurn(hc, r.p, bytes[0]);
      hide Turn, Settled, AppendAll, Append, HeaderFlags;
      var r' := r.(p := Settled(r.p), log := SettledLog(r.p, r.log));
      AppendCons(r.log, Data(ValueData, []), Turn(hc, r'.p, bytes[0]).events);
      assert Advance(hc, r, bytes[0]) == Advance(hc, r', bytes[0]);
    }
  }

  lemma TokenStart(h: Header)
    requires ValidHeader(h)
    ensures Line(h) != [] && !IsWs(Line(h)[0])
  {
    hide Decimal, DecimalValue, Name, NoBreak;
    TokenIsNotSpace(h.name[0]);
    assert Line(h)[0] == h.name[0];
  }

  lemma LinesStart(hs: seq<Header>, tail: seq<Octet>)
    requires ValidHeaders(hs) && tail != [] && !IsWs(tail[0])
    ensures Lines(hs) + tail != [] && !IsWs((Lines(hs) + tail)[0])
  {
    hide ValidHeader, Line, IsWs;
    if hs != [] {
      TokenStart(hs[0]);
      assert (Lines(hs) + tail)[0] == Line(hs[0])[0];
    } else {
      assert Lines(hs) + tail == tail;
    }
  }

  /** A list of header lines, followed by a byte that does not continue the last value. */
  lemma {:induction false} LinesRun(hc: SkipBody, r: Run, hs: seq<Header>, tail: seq<Octet>)
    requires !Halted(r) && r.p.state.FieldStart? && ValidHeaders(hs)
    requires tail != [] && !IsWs(tail[0])
    requires r.p.nread + |Lines(hs)| < MAX_HEADER_SIZE
    ensures Feed(hc, r, Lines(hs) + tail) ==
            Feed(hc, At'(r, After(r.p, hs), AppendAll(r.log, HeaderEvents(hs)), |Lines(hs)|), tail)
    decreases |hs|
  {
    hide HeaderMeaning, LineState, Settled, SettledLog, LineLog, LineEvents, Line, ValidHeader, Advance, Append,
         AppendAll;
    if hs == [] {
      AppendNone(r.log);
      assert Lines(hs) + tail == tail;
    } else {
      var h, rest := hs[0], hs[1..];
      LineMeaning(r.p, h);
      LineRun(hc, r, h);
      var r1 := Feed(hc, r, Line(h));
      assert Lines(hs) + tail == Line(h) + (Lines(rest) + tail);
      FeedSplit(hc, r, Line(h), Lines(rest) + tail);
      LinesStart(rest, tail);
      StateOfLine(r.p, h);
      Settle(hc, r1, Lines(rest) + tail);
      SettledLogIs(r.p, r.log, h);
      LinesRun(hc, r1.(p := Settled(r1.p), log := SettledLog(r1.p, r1.log)), rest, tail);
      AppendAllSplit(r.log, LineEvents(h), HeaderEvents(rest));
    }
  }

  lemma StateOfLine(p: Parser, h: Header)
    requires ValidHeader(h) && p.errno.OK?
    ensures var q := LineState(p, h);
            && AtLineEnd(q.state) && q.nread == p.nread + |Line(h)| && q.errno.OK?
            && (q.state.ValueDiscardLws? <==> h.colon && h.value == [])
            && (!q.state.ValueLws? ==> HeaderFlags(q) == q.flags)
  {
    hide Line, ValueState, NameState, Lead, ValidFolds, Tokens, NoBreak, Decimal, DecimalValue, Name;
    NameStateInField(p, h.name);
    NamedFlags(p, h.name);
    LineMeaning(p, h);
  }

  lemma SettledLogIs(p: Parser, log: seq<Event>, h: Header)
    requires ValidHeader(h) && p.errno.OK?
    ensures SettledLog(LineState(p, h), LineLog(log, h)) == AppendAll(log, LineEvents(h))
  {
    StateOfLine(p, h);
    NoFolds(h.folds);
    hide LineState, Append, AppendAll, Lead, ValidFolds, Tokens, NoBreak, Decimal, DecimalValue, Name, FoldValues;
    var l := Append(log, Data(FieldData, h.name));
    AppendOne(log, Data(FieldData, h.name));
    AppendTwo(log, Data(FieldData, h.name), Data(ValueData, Whole(h)));
    assert h.value == [] && h.folds == [] ==> Whole(h) == [];
    assert [Data(FieldData, h.name)] + [] == [Data(FieldData, h.name)];
    assert [Data(FieldData, h.name)] + [Data(ValueData, Whole(h))] ==
           [Data(FieldData, h.name), Data(ValueData, Whole(h))];
  }

  // ---------- the end of the headers ----------

  lemma LastLine(hc: SkipBody, r: Run)
    requires !Halted(r) && r.p.state.FieldStart? && r.p.nread < MAX_HEADER_SIZE
    ensures Feed(hc, r, [CR]) == At'(r, r.p.(state := HeadersAlmostDone, nread := r.p.nread + 1), r.log, 1)
  {
    Quietly(hc, r, CR, r.p.(state := HeadersAlmostDone, nread := r.p.nread + 1));
  }

  /** The record at the end of the headers, before what their end brings about. */
  function Ending(p: Parser, end: seq<Octet>): Parser { p.(state := HeadersAlmostDone, nread := p.nread + |end|) }

  lemma EndTurn(hc: SkipBody, p: Parser)
    requires (p.state.FieldStart? || p.state.HeadersAlmostDone?) && p.nread < MAX_HEADER_SIZE
    ensures Turn(hc, p, LF) == StepHeadersAlmostDone(hc, Ending(p, [LF]), LF)
  {
    hide StepHeadersAlmostDone;
  }

  /** The empty line that ends the headers. */
  lemma EndRun(hc: SkipBody, r: Run, end: seq<Octet>)
    requires !Halted(r) && r.p.state.FieldStart? && IsBreak(end) && r.p.nread + |end| <= MAX_HEADER_SIZE
    requires StepHeadersAlmostDone(hc, Ending(r.p, end), LF).p.errno.OK?
    ensures var e := StepHeadersAlmostDone(hc, Ending(r.p, end), LF);
            Feed(hc, r, end) == Run(e.p, AppendAll(r.log, e.events), r.consumed + |end|, e.exit)
  {
    hide StepHeadersAlmostDone, Append, AppendAll, Turn;
    if end == [LF] {
      EndTurn(hc, r.p);
      FeedByte(hc, r, LF);
    } else {
      LastLine(hc, r);
      var r1 := Feed(hc, r, [CR]);
      EndTurn(hc, r1.p);
      FeedByte(hc, r1, LF);
      FeedSplit(hc, r, [CR], [LF]);
      assert [CR] + [LF] == [CR, LF];
    }
  }

  /** The record between messages. */
  function Finished(p: Parser): Parser { p.(state := NewMessage(p)) }

  /** Headers that announce neither an upgrade nor, by the callback, a message without body. */
  predicate Plain(hc: SkipBody, p: Parser, end: seq<Octet>) {
    && p.errno.OK? && !p.flags.trailing && !p.flags.upgrade && !p.flags.skipBody && !p.httpMethod.CONNECT?
    && !hc(p.(state := HeadersDone, upgrade := false, nread := p.nread + |end|))
  }

  /** The record when the body begins. */
  function BodyStart(p: Parser): Parser { p.(state := HeadersDone, upgrade := false, nread := 0) }

  lemma PlainEnd(hc: SkipBody, p: Parser, end: seq<Octet>)
    requires Plain(hc, p, end)
    ensures var e := StepHeadersAlmostDone(hc, Ending(p, end), LF);
            var d := StepHeadersDone(BodyStart(p));
            e == d.(events := [HeadersComplete] + d.events)
  {
    hide NewMessage, NeedsEof;
    var q := p.(state := HeadersDone, upgrade := false, nread := p.nread + |end|);
    assert StepHeadersDone(q) == StepHeadersDone(BodyStart(p));
  }

  lemma HeadEnd(hc: SkipBody, r: Run, end: seq<Octet>)
    requires !Halted(r) && r.p.state.FieldStart? && IsBreak(end) && r.p.nread + |end| <= MAX_HEADER_SIZE
             && Plain(hc, r.p, end)
    ensures var d := StepHeadersDone(BodyStart(r.p));
            Feed(hc, r, end) ==
              Run(d.p, AppendAll(Append(r.log, HeadersComplete), d.events), r.consumed + |end|, d.exit)
  {
    hide Append, StepHeadersAlmostDone, StepHeadersDone, AppendAll;
    PlainEnd(hc, r.p, end);
    DoneIsOk(BodyStart(r.p));
    EndRun(hc, r, end);
    AppendCons(r.log, HeadersComplete, StepHeadersDone(BodyStart(r.p)).events);
  }

  lemma DoneIsOk(p: Parser)
    requires p.errno.OK?
    ensures StepHeadersDone(p).p.errno.OK?
  {
  }

  /** How the end of the headers decides what follows (section 4.4 of RFC 2616): nothing, a body of known
      length, or a body up to the end of the connection; chunks come before a length. */
  lemma SizedRun(hc: SkipBody, r: Run, end: seq<Octet>, body: seq<Octet>)
    requires !Halted(r) && r.p.state.FieldStart? && IsBreak(end) && r.p.nread + |end| <= MAX_HEADER_SIZE
             && Plain(hc, r.p, end)
    requires !r.p.flags.chunked && r.p.contentLength == |body| < ULLONG_MAX
    ensures Feed(hc, r, end + body) ==
            At'(r, Finished(BodyStart(r.p).(contentLength := 0)),
                Append(if body == [] then Append(r.log, HeadersComplete)
                       else Append(Append(r.log, HeadersComplete), Data(BodyData, body)), MessageComplete),
                         |end| + |body|)
  {
    hide Append, NewMessage, StepHeadersDone, Plain, Feed;
    HeadEnd(hc, r, end);
    DoneSized(hc, r.p, end);
    FeedSplit(hc, r, end, body);
    var log := Append(r.log, HeadersComplete);
    if body == [] {
      AppendOne(log, MessageComplete);
      FeedNone(hc, Feed(hc, r, end));
    } else {
      AppendNone(log);
      var q := BodyStart(r.p).(state := BodyIdentity);
      assert Feed(hc, r, end) == At'(r, q, log, |end|);
      BulkIsFeed(hc, q, log, r.consumed + |end|, body);
      NewMessageState(q.(contentLength := 0), HeadersDone);
    }
  }

  lemma DoneSized(hc: SkipBody, p: Parser, end: seq<Octet>)
    requires Plain(hc, p, end) && !p.flags.chunked && p.contentLength != ULLONG_MAX
    ensures StepHeadersDone(BodyStart(p)) ==
            if p.contentLength == 0 then Call(Finished(BodyStart(p)), MessageComplete)
            else Go(BodyStart(p).(state := BodyIdentity))
  {
    hide NewMessage;
  }

  /** Responses with these codes have no body, whatever else they say (section 4.4 of RFC 2616). */
  predicate Bodiless(code: nat) { 100 <= code <= 199 || code == 204 || code == 304 }

  /** A response that announces neither chunks nor a length: its body ends with the connection. */
  predicate EndsWithConnection(p: Parser) {
    !p.kind.Request? && !Bodiless(p.statusCode) && !p.flags.chunked && p.contentLength == 0xFFFF_FFFF_FFFF_FFFF
  }

  /** http_message_needs_eof, for messages whose body is not to be skipped. */
  lemma NeedsEofIff(p: Parser)
    ensures NeedsEof(p) <==> EndsWithConnection(p) && !p.flags.skipBody
  {
  }

  /** A response with no length and no chunks: the body is everything up to the end of the connection,
      and the call with no bytes completes the message. */
  lemma ToEofRun(hc: SkipBody, r: Run, end: seq<Octet>, body: seq<Octet>)
    requires !Halted(r) && r.p.state.FieldStart? && IsBreak(end) && r.p.nread + |end| <= MAX_HEADER_SIZE
             && Plain(hc, r.p, end)
    requires EndsWithConnection(r.p)
    ensures var s := Feed(hc, r, end + body);
            var log := Append(r.log, HeadersComplete);
            && s == At'(r, BodyStart(r.p).(state := BodyIdentityEof),
                        if body == [] then log else Append(log, Data(BodyData, body)), |end| + |body|)
            && Closed(s) == s.(log := Append(s.log, MessageComplete))
  {
    hide Append, StepHeadersDone, Plain, EndsWithConnection, Feed;
    HeadEnd(hc, r, end);
    DoneToEof(hc, r.p, end);
    AppendNone(Append(r.log, HeadersComplete));
    var q := BodyStart(r.p).(state := BodyIdentityEof);
    var r1 := At'(r, q, Append(r.log, HeadersComplete), |end|);
    assert Feed(hc, r, end) == r1;
    FeedSplit(hc, r, end, body);
    if body == [] {
      FeedNone(hc, r1);
    } else {
      EofBulkIsFeed(hc, q, r1.log, r1.consumed, body);
    }
  }

  lemma DoneToEof(hc: SkipBody, p: Parser, end: seq<Octet>)
    requires Plain(hc, p, end) && EndsWithConnection(p)
    ensures StepHeadersDone(BodyStart(p)) == Go(BodyStart(p).(state := BodyIdentityEof))
  {
    NeedsEofIff(BodyStart(p));
    hide NeedsEof;
  }

  // ---------- chunked coding ----------

  predicate HexDigits(ds: seq<Octet>) { ds != [] && forall i :: 0 <= i < |ds| ==> Unhex(ds[i]) != -1 }

  function HexValue(ds: seq<Octet>): nat
    requires HexDigits(ds)
  {
    if |ds| == 1 then Unhex(ds[0]) else HexValue(ds[..|ds| - 1]) * 16 + Unhex(ds[|ds| - 1])
  }

  /** The record after the digits of a chunk size: s_chunk_size_start, then s_chunk_size. */
  function SizeState(p: Parser, ds: seq<Octet>): Parser
    requires ds != [] && HexDigits(ds) && p.state.ChunkSizeStart?
    ensures SizeState(p, ds).errno.OK? && p.errno.OK? ==> SizeState(p, ds).state.ChunkSize?
  {
    if |ds| == 1 then StepChunk(p, ds[0]).p
    else
      var q := SizeState(p, ds[..|ds| - 1]);
      if q.errno.OK? && q.state.ChunkSize? then StepChunk(q, ds[|ds| - 1]).p else q
  }

  lemma DigitIsNotCr(ch: Octet)
    requires Unhex(ch) != -1
    ensures ch != CR && ch != LF && ch != ';' && ch != ' '
  {
  }

  /** A chunk size is accepted exactly when it is at most MAX_HEX, and then the length is the exact value of
      its digits: no 64-bit wrap-around, and never the value for "no length". */
  lemma {:induction false} SizeIsExact(p: Parser, ds: seq<Octet>)
    requires HexDigits(ds) && p.state.ChunkSizeStart? && p.errno.OK?
    ensures var q := SizeState(p, ds);
            && (q.errno.OK? <==> HexValue(ds) <= MAX_HEX)
            && (q.errno.OK? ==>
                  q == p.(state := ChunkSize, contentLength := HexValue(ds)) && q.contentLength < ULLONG_MAX)
            && (!q.errno.OK? ==> q.errno == INVALID_CONTENT_LENGTH)
  {
    hide Scaled, Unhex;
    if |ds| > 1 {
      var u, ch := ds[..|ds| - 1], ds[|ds| - 1];
      SizeIsExact(p, u);
      DigitIsNotCr(ch);
      assert 0 <= Unhex(ch) < 16;
      Below(HexValue(u), Unhex(ch), 16);
    }
  }

  lemma FirstDigit(hc: SkipBody, r: Run, ch: Octet)
    requires !Halted(r) && r.p.state.ChunkSizeStart? && Unhex(ch) != -1 && r.p.nread < MAX_HEADER_SIZE
    ensures Feed(hc, r, [ch]) ==
            At'(r, r.p.(state := ChunkSize, contentLength := Unhex(ch), nread := r.p.nread + 1), r.log, 1)
  {
    hide Unhex;
    Quietly(hc, r, ch, r.p.(state := ChunkSize, contentLength := Unhex(ch), nread := r.p.nread + 1));
  }

  lemma NextDigit(hc: SkipBody, r: Run, ch: Octet)
    requires !Halted(r) && r.p.state.ChunkSize? && Unhex(ch) != -1 && r.p.nread < MAX_HEADER_SIZE
    requires r.p.contentLength <= (ULLONG_MAX - 16) / 16
    ensures Feed(hc, r, [ch]) ==
            At'(r, r.p.(contentLength := Scaled(r.p.contentLength, 16, Unhex(ch)), nread := r.p.nread + 1), r.log, 1)
  {
    hide Scaled;
    DigitIsNotCr(ch);
    hide Unhex;
    Quietly(hc, r, ch, r.p.(contentLength := Scaled(r.p.contentLength, 16, Unhex(ch)), nread := r.p.nread + 1));
  }

  lemma {:induction false} SizeRun(hc: SkipBody, r: Run, ds: seq<Octet>)
    requires !Halted(r) && r.p.state.ChunkSizeStart? && HexDigits(ds) && HexValue(ds) <= MAX_HEX
    requires r.p.nread + |ds| <= MAX_HEADER_SIZE
    ensures Feed(hc, r, ds) ==
            At'(r, r.p.(state := ChunkSize, contentLength := HexValue(ds), nread := r.p.nread + |ds|), r.log, |ds|)
  {
    hide Unhex, Scaled, Advance;
    var ch := ds[|ds| - 1];
    assert 0 <= Unhex(ch) < 16;
    if |ds| == 1 {
      assert ds == [ch];
      FirstDigit(hc, r, ch);
    } else {
      var u := ds[..|ds| - 1];
      assert u + [ch] == ds;
      Below(HexValue(u), Unhex(ch), 16);
      SizeRun(hc, r, u);
      var s := Feed(hc, r, u);
      NextDigit(hc, s, ch);
      FeedSplit(hc, r, u, [ch]);
    }
  }

  /** No byte that may follow the digits of a chunk size. */
  predicate NoSizeEnd(ds: seq<Octet>) { forall i :: 0 <= i < |ds| ==> ds[i] != CR && ds[i] != ';' && ds[i] != ' ' }

  predicate IsHex(ch: Octet) { '0' <= ch <= '9' || 'a' <= ch <= 'f' || 'A' <= ch <= 'F' }

  lemma HexSnoc(u: seq<Octet>, ch: Octet)
    requires u != []
    ensures HexDigits(u + [ch]) <==> HexDigits(u) && Unhex(ch) != -1
    ensures HexDigits(u + [ch]) ==> HexValue(u + [ch]) == HexValue(u) * 16 + Unhex(ch)
  {
    hide Unhex;
    var ds := u + [ch];
    assert ds[..|ds| - 1] == u && ds[|u|] == ch;
    assert forall i :: 0 <= i < |u| ==> u[i] == ds[i];
  }

  lemma NoDigit(hc: SkipBody, r: Run, ch: Octet)
    requires !Halted(r) && (r.p.state.ChunkSizeStart? || r.p.state.ChunkSize?) && Unhex(ch) == -1
    requires ch != CR && ch != ';' && ch != ' '
    ensures Halted(Feed(hc, r, [ch]))
  {
    hide Unhex, AppendAll;
    FeedByte(hc, r, ch);
  }

  lemma TooLong(hc: SkipBody, r: Run, ch: Octet)
    requires !Halted(r) && r.p.state.ChunkSize? && Unhex(ch) != -1 && (ULLONG_MAX - 16) / 16 < r.p.contentLength
    ensures Halted(Feed(hc, r, [ch]))
  {
    DigitIsNotCr(ch);
    hide Unhex, AppendAll;
    FeedByte(hc, r, ch);
  }

  /** The bytes of a chunk size are accepted if and only if the table has each of them as a digit, and
      their value is within the bound. */
  lemma {:induction false} SizeAccepted(hc: SkipBody, r: Run, ds: seq<Octet>)
    requires !Halted(r) && r.p.state.ChunkSizeStart? && r.p.nread + |ds| <= MAX_HEADER_SIZE
    requires ds != [] && NoSizeEnd(ds)
    ensures !Halted(Feed(hc, r, ds)) <==> HexDigits(ds) && HexValue(ds) <= MAX_HEX
  {
    hide Unhex, Scaled, Advance, HexValue, HexDigits, Feed;
    var u, ch := ds[..|ds| - 1], ds[|ds| - 1];
    if u == [] {
      assert ds == [ch];
      OneDigit(ch);
      if Unhex(ch) == -1 {
        NoDigit(hc, r, ch);
      } else {
        FirstDigit(hc, r, ch);
      }
    } else {
      assert ds == u + [ch];
      HexSnoc(u, ch);
      FeedSplit(hc, r, u, [ch]);
      SizeAccepted(hc, r, u);
      if Halted(Feed(hc, r, u)) {
        HaltedStays(hc, Feed(hc, r, u), [ch]);
        if HexDigits(ds) {
          Below(HexValue(u), Unhex(ch), 16);
        }
      } else {
        SizeRun(hc, r, u);
        if Unhex(ch) == -1 {
          NoDigit(hc, Feed(hc, r, u), ch);
        } else {
          Below(HexValue(u), Unhex(ch), 16);
          if HexValue(u) <= (ULLONG_MAX - 16) / 16 {
            NextDigit(hc, Feed(hc, r, u), ch);
          } else {
            TooLong(hc, Feed(hc, r, u), ch);
          }
        }
      }
    }
  }

  lemma OneDigit(ch: Octet)
    ensures HexDigits([ch]) <==> Unhex(ch) != -1
    ensures HexDigits([ch]) ==> HexValue([ch]) == Unhex(ch) <= 15
  {
    hide Unhex;
    assert [ch][0] == ch;
  }

  /** The bytes from 128 on replaced by the digit 0. */
  function Zeroed(ds: seq<Octet>): seq<Octet> {
    if ds == [] then [] else [if ds[0] as int >= 128 then '0' else ds[0]] + Zeroed(ds[1..])
  }

  lemma HighByteIsZero(hc: SkipBody, p: Parser, ch: Octet)
    requires p.state.ChunkSizeStart? || p.state.ChunkSize?
    requires ch as int >= 128
    ensures Turn(hc, p, ch) == Turn(hc, p, '0')
  {
  }

  lemma SizeByteStays(hc: SkipBody, r: Run, ch: Octet)
    requires !Halted(r) && (r.p.state.ChunkSizeStart? || r.p.state.ChunkSize?) && ch != CR && ch != ';' && ch != ' '
    ensures Halted(Advance(hc, r, ch)) || Advance(hc, r, ch).p.state.ChunkSize?
  {
    hide Unhex, Scaled, AppendAll;
  }

  lemma {:induction false} HighBytesAreZeros(hc: SkipBody, r: Run, ds: seq<Octet>)
    requires !Halted(r) ==> r.p.state.ChunkSizeStart? || r.p.state.ChunkSize?
    requires NoSizeEnd(ds)
    ensures Feed(hc, r, ds) == Feed(hc, r, Zeroed(ds))
    decreases |ds|
  {
    hide Turn;
    if ds != [] && !Halted(r) {
      var ch := if ds[0] as int >= 128 then '0' else ds[0];
      if ds[0] as int >= 128 {
        HighByteIsZero(hc, r.p, ds[0]);
      }
      SizeByteStays(hc, r, ds[0]);
      HighBytesAreZeros(hc, Advance(hc, r, ds[0]), ds[1..]);
      assert Zeroed(ds)[0] == ch && Zeroed(ds)[1..] == Zeroed(ds[1..]);
    }
  }

  /** The digit table is filled in only for the first 128 bytes: wherever another one stands in a chunk
      size it is the digit 0, so that an accepted size is one of hex digits if and only if it has none. */
  lemma SizeIsHexIff(hc: SkipBody, r: Run, ds: seq<Octet>)
    requires !Halted(r) && r.p.state.ChunkSizeStart? && r.p.nread + |ds| <= MAX_HEADER_SIZE
    requires ds != [] && NoSizeEnd(ds)
    ensures Feed(hc, r, ds) == Feed(hc, r, Zeroed(ds))
    ensures !Halted(Feed(hc, r, ds)) ==>
              ((forall i :: 0 <= i < |ds| ==> IsHex(ds[i])) <==> (forall i :: 0 <= i < |ds| ==> ds[i] as int < 128))
  {
    HighBytesAreZeros(hc, r, ds);
    if !Halted(Feed(hc, r, ds)) {
      SizeAccepted(hc, r, ds);
      forall i | 0 <= i < |ds| ensures IsHex(ds[i]) <==> ds[i] as int < 128 {
        assert Unhex(ds[i]) != -1;
      }
    }
  }

  /** A size that shows it: one byte, no hex digit, and it is read as 0. */
  lemma HighSizeIsRead(hc: SkipBody, r: Run)
    requires !Halted(r) && r.p.state.ChunkSizeStart? && r.p.nread < MAX_HEADER_SIZE
    ensures var s := Feed(hc, r, [128 as char]);
            !IsHex(128 as char) && !Halted(s) && s.p.state.ChunkSize? && s.p.contentLength == 0
  {
    FirstDigit(hc, r, 128 as char);
  }

  /** A chunk: the digits of its size, what may follow them on the line, and its data. */
  datatype Chunk = Chunk(size: seq<Octet>, ext: seq<Octet>, data: seq<Octet>)

  predicate ValidExt(ext: seq<Octet>) {
    (ext != [] ==> ext[0] == ';' || ext[0] == ' ') && forall i :: 0 <= i < |ext| ==> ext[i] != CR
  }

  predicate ValidSize(c: Chunk) {
    && HexDigits(c.size) && HexValue(c.size) == |c.data| <= MAX_HEX
    && ValidExt(c.ext) && |c.size| + |c.ext| + 2 <= MAX_HEADER_SIZE
  }

  /** The record before the trailing headers. */
  function Trailing(p: Parser): Parser {
    var f := p.flags;
    p.(flags := f.(trailing := true), state := FieldStart)
  }

  /** The record after a chunk size line. */
  function SizeRead(p: Parser): Parser {
    if p.contentLength == 0 then Trailing(p) else p.(state := ChunkData)
  }

  function SizeLine(c: Chunk): seq<Octet> { c.size + c.ext + [CR, LF] }

  lemma {:induction false} ExtRun(hc: SkipBody, r: Run, ext: seq<Octet>)
    requires !Halted(r) && r.p.state.ChunkParameters? && forall i :: 0 <= i < |ext| ==> ext[i] != CR
    requires r.p.nread + |ext| <= MAX_HEADER_SIZE
    ensures Feed(hc, r, ext) == At'(r, r.p.(nread := r.p.nread + |ext|), r.log, |ext|)
    decreases |ext|
  {
    if ext != [] {
      ParameterByte(hc, r, ext[0]);
      var s := Feed(hc, r, [ext[0]]);
      assert [ext[0]] + ext[1..] == ext;
      FeedSplit(hc, r, [ext[0]], ext[1..]);
      ExtRun(hc, s, ext[1..]);
    }
  }

  lemma ParameterByte(hc: SkipBody, r: Run, ch: Octet)
    requires !Halted(r) && r.p.state.ChunkParameters? && ch != CR && r.p.nread < MAX_HEADER_SIZE
    ensures Feed(hc, r, [ch]) == At'(r, r.p.(nread := r.p.nread + 1), r.log, 1)
  {
    Quietly(hc, r, ch, r.p.(nread := r.p.nread + 1));
  }

  /** A chunk size line. */
  lemma SizeLineRun(hc: SkipBody, r: Run, c: Chunk)
    requires !Halted(r) && r.p.state.ChunkSizeStart? && r.p.nread == 0 && ValidSize(c)
    ensures Feed(hc, r, SizeLine(c)) ==
            At'(r, SizeRead(r.p.(contentLength := |c.data|)), r.log, |SizeLine(c)|)
  {
    hide Advance, Unhex;
    SizeRun(hc, r, c.size);
    var r1 := Feed(hc, r, c.size);
    AfterSize(hc, r1, c.ext);
    var r2 := Feed(hc, r1, c.ext);
    SizeEnd(hc, r2);
    FeedSplit(hc, r, c.size, c.ext);
    FeedSplit(hc, r, c.size + c.ext, [CR, LF]);
  }

  lemma AfterSize(hc: SkipBody, r: Run, ext: seq<Octet>)
    requires !Halted(r) && r.p.state.ChunkSize? && ValidExt(ext) && r.p.nread + |ext| <= MAX_HEADER_SIZE
    ensures Feed(hc, r, ext) ==
            At'(r, r.p.(state := if ext == [] then ChunkSize else ChunkParameters, nread := r.p.nread + |ext|), r.log,
                |ext|)
  {
    if ext != [] {
      Quietly(hc, r, ext[0], r.p.(state := ChunkParameters, nread := r.p.nread + 1));
      var s := Feed(hc, r, [ext[0]]);
      assert [ext[0]] + ext[1..] == ext;
      FeedSplit(hc, r, [ext[0]], ext[1..]);
      ExtRun(hc, s, ext[1..]);
    }
  }

  lemma SizeEnd(hc: SkipBody, r: Run)
    requires !Halted(r) && (r.p.state.ChunkSize? || r.p.state.ChunkParameters?) && r.p.nread + 2 <= MAX_HEADER_SIZE
    ensures Feed(hc, r, [CR, LF]) ==
            At'(r, SizeRead(r.p.(nread := 0)), r.log, 2)
  {
    SizeCr(hc, r);
    var s := Feed(hc, r, [CR]);
    SizeLf(hc, s);
    FeedSplit(hc, r, [CR], [LF]);
    assert [CR] + [LF] == [CR, LF];
  }

  lemma SizeCr(hc: SkipBody, r: Run)
    requires !Halted(r) && (r.p.state.ChunkSize? || r.p.state.ChunkParameters?) && r.p.nread < MAX_HEADER_SIZE
    ensures Feed(hc, r, [CR]) == At'(r, r.p.(state := ChunkSizeAlmostDone, nread := r.p.nread + 1), r.log, 1)
  {
    Quietly(hc, r, CR, r.p.(state := ChunkSizeAlmostDone, nread := r.p.nread + 1));
  }

  lemma SizeLf(hc: SkipBody, r: Run)
    requires !Halted(r) && r.p.state.ChunkSizeAlmostDone? && r.p.nread < MAX_HEADER_SIZE
    ensures Feed(hc, r, [LF]) ==
            At'(r, SizeRead(r.p.(nread := 0)), r.log, 1)
  {
    Quietly(hc, r, LF, SizeRead(r.p.(nread := 0)));
  }

  function ChunkText(c: Chunk): seq<Octet> { SizeLine(c) + c.data + [CR, LF] }

  /** A chunk with data. */
  lemma ChunkRun(hc: SkipBody, r: Run, c: Chunk)
    requires !Halted(r) && r.p.state.ChunkSizeStart? && r.p.nread == 0 && ValidSize(c) && c.data != []
    ensures Feed(hc, r, ChunkText(c)) ==
            At'(r, r.p.(contentLength := 0), Append(r.log, Data(BodyData, c.data)), |ChunkText(c)|)
  {
    hide Advance, Append, SizeLine, ValidExt, HexValue, HexDigits;
    SizeLineRun(hc, r, c);
    var r1 := Feed(hc, r, SizeLine(c));
    BulkIsFeed(hc, r1.p, r1.log, r1.consumed, c.data);
    var r2 := Feed(hc, r1, c.data);
    ChunkEnd(hc, r2);
    FeedSplit(hc, r, SizeLine(c), c.data);
    FeedSplit(hc, r, SizeLine(c) + c.data, [CR, LF]);
  }

  lemma ChunkEnd(hc: SkipBody, r: Run)
    requires !Halted(r) && r.p.state.ChunkDataAlmostDone?
    ensures Feed(hc, r, [CR, LF]) == At'(r, r.p.(state := ChunkSizeStart, nread := 0), r.log, 2)
  {
    Quietly(hc, r, CR, r.p.(state := ChunkDataDone));
    var s := Feed(hc, r, [CR]);
    Quietly(hc, s, LF, s.p.(state := ChunkSizeStart, nread := 0));
    FeedSplit(hc, r, [CR], [LF]);
    assert [CR] + [LF] == [CR, LF];
  }

  predicate ValidChunks(cs: seq<Chunk>) { forall i :: 0 <= i < |cs| ==> ValidSize(cs[i]) && cs[i].data != [] }

  function ChunkTexts(cs: seq<Chunk>): seq<Octet> {
    if cs == [] then [] else ChunkText(cs[0]) + ChunkTexts(cs[1..])
  }

  function AllData(cs: seq<Chunk>): seq<Octet> {
    if cs == [] then [] else cs[0].data + AllData(cs[1..])
  }

  /** A list of chunks is reported as one body. */
  lemma {:induction false} ChunksRun(hc: SkipBody, r: Run, cs: seq<Chunk>)
    requires !Halted(r) && r.p.state.ChunkSizeStart? && r.p.nread == 0 && ValidChunks(cs) && cs != []
    ensures Feed(hc, r, ChunkTexts(cs)) ==
            At'(r, r.p.(contentLength := 0), Append(r.log, Data(BodyData, AllData(cs))), |ChunkTexts(cs)|)
    decreases |cs|
  {
    hide Advance, Append, ChunkText, ValidSize;
    var c, rest := cs[0], cs[1..];
    ChunkRun(hc, r, c);
    var r1 := Feed(hc, r, ChunkText(c));
    FeedSplit(hc, r, ChunkText(c), ChunkTexts(rest));
    if rest == [] {
      assert AllData(cs) == c.data;
      assert ChunkTexts(cs) == ChunkText(c);
    } else {
      ChunksRun(hc, r1, rest);
      AppendData(r.log, BodyData, c.data, AllData(rest));
    }
  }

  function Emptied(p: Parser): Parser { p.(contentLength := 0) }

  function LineEnded(p: Parser, end: seq<Octet>): Parser { p.(nread := p.nread + |end|) }

  function ChunksLog(log: seq<Event>, cs: seq<Chunk>): seq<Event> {
    if cs == [] then log else Append(log, Data(BodyData, AllData(cs)))
  }

  /** A body in chunks: the chunks, the line of the last chunk, the trailing headers, the empty line. */
  function ChunkedText(cs: seq<Chunk>, last: Chunk, trailers: seq<Header>, end: seq<Octet>): seq<Octet> {
    ChunkTexts(cs) + SizeLine(last) + Lines(trailers) + end
  }

  /** Body framing: a chunked body is reported as the concatenation of its chunks, and the message completes
      once, after the trailing headers. */
  lemma ChunkedRun(hc: SkipBody, r: Run, cs: seq<Chunk>, last: Chunk, trailers: seq<Header>, end: seq<Octet>)
    requires !Halted(r) && r.p.state.ChunkSizeStart? && r.p.nread == 0 && !r.p.flags.trailing
    requires ValidChunks(cs) && ValidSize(last) && last.data == [] && ValidHeaders(trailers)
    requires IsBreak(end) && |Lines(trailers)| + |end| <= MAX_HEADER_SIZE
    ensures Feed(hc, r, ChunkedText(cs, last, trailers, end)) ==
            At'(r, Finished(LineEnded(After(Trailing(Emptied(r.p)), trailers), end)),
                Append(AppendAll(ChunksLog(r.log, cs), HeaderEvents(trailers)), MessageComplete),
                  |ChunkedText(cs, last, trailers, end)|)
  {
    hide Advance, Append, AppendAll, ChunkText, SizeLine, Lines, ValidSize, ValidHeaders, After, AllData;
    var a := ChunkTexts(cs);
    var r1 := if cs == [] then r else Feed(hc, r, a);
    if cs == [] {
      assert a == [];
    } else {
      ChunksRun(hc, r, cs);
    }
    assert Feed(hc, r, a) == r1;
    SizeLineRun(hc, r1, last);
    var r2 := Feed(hc, r1, SizeLine(last));
    LinesRun(hc, r2, trailers, end);
    AfterMeaning(r2.p, trailers);
    MeaningTrailing(Framing(r2.p.flags, r2.p.contentLength), trailers);
    TrailingEnd(hc, At'(r2, After(r2.p, trailers), AppendAll(r2.log, HeaderEvents(trailers)), |Lines(trailers)|), end);
    FeedSplit(hc, r, a, SizeLine(last));
    FeedSplit(hc, r, a + SizeLine(last), Lines(trailers) + end);
    assert ChunkedText(cs, last, trailers, end) == a + SizeLine(last) + (Lines(trailers) + end);
  }

  /** Headers do not touch the flag that says they are trailers, or that the body is to be skipped. */
  lemma {:induction false} MeaningTrailing(f: Framing, hs: seq<Header>)
    requires ValidHeaders(hs)
    ensures Meaning(f, hs).flags.trailing == f.flags.trailing && Meaning(f, hs).flags.skipBody == f.flags.skipBody
    decreases |hs|
  {
    hide HeaderMeaning, ValidHeader;
    if hs != [] {
      OneTrailing(f, hs[0]);
      MeaningTrailing(HeaderMeaning(f, hs[0]), hs[1..]);
    }
  }

  lemma OneTrailing(f: Framing, h: Header)
    requires ValidHeader(h)
    ensures var g := HeaderMeaning(f, h).flags; g.trailing == f.flags.trailing && g.skipBody == f.flags.skipBody
  {
    hide Word, Name, DecimalValue, Decimal, Lead, ValidFolds, Tokens;
  }

  lemma TrailingEnd(hc: SkipBody, r: Run, end: seq<Octet>)
    requires !Halted(r) && r.p.state.FieldStart? && r.p.flags.trailing && IsBreak(end)
             && r.p.nread + |end| <= MAX_HEADER_SIZE
    ensures Feed(hc, r, end) == At'(r, Finished(LineEnded(r.p, end)), Append(r.log, MessageComplete), |end|)
  {
    hide Append, NewMessage;
    EndRun(hc, r, end);
    AppendOne(r.log, MessageComplete);
    NewMessageState(LineEnded(r.p, end), HeadersAlmostDone);
  }
}
