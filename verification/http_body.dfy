/** What comes after a start line: the headers, the empty line and the body, and what they leave in the record. */
module HttpBody {
  import opened HttpTypes
  import opened HttpStep
  import opened HttpRun
  import opened HttpMessage
  import opened HttpFraming

  /** `end` is the empty line after the trailing headers; ToEof is a body that the end of the connection ends. */
  datatype Body =
    | NoBody
    | Sized(data: seq<Octet>)
    | ToEof(data: seq<Octet>)
    | InChunks(chunks: seq<Chunk>, last: Chunk, trailers: seq<Header>, end: seq<Octet>)

  function BodyText(b: Body): seq<Octet> {
    match b
    case NoBody => []
    case Sized(data) => data
    case ToEof(data) => data
    case InChunks(cs, last, trailers, end) => ChunkedText(cs, last, trailers, end)
  }

  /** The bytes a body carries. */
  function Payload(b: Body): seq<Octet> {
    match b
    case NoBody => []
    case Sized(data) => data
    case ToEof(data) => data
    case InChunks(cs, _, _, _) => AllData(cs)
  }

  function BodyEvents(b: Body): seq<Event> {
    (if Payload(b) == [] then [] else [Data(BodyData, Payload(b))])
    + (if b.InChunks? then HeaderEvents(b.trailers) else [])
    + [MessageComplete]
  }

  predicate ValidChunked(b: Body)
    requires b.InChunks?
  {
    && ValidChunks(b.chunks) && ValidSize(b.last) && b.last.data == [] && ValidHeaders(b.trailers)
    && IsBreak(b.end) && |Lines(b.trailers)| + |b.end| <= MAX_HEADER_SIZE
  }

  /** The record after the headers calls for the body: chunks, a length, the end of the connection, or nothing. */
  predicate Carries(p: Parser, b: Body) {
    match b
    case NoBody =>
      !p.flags.chunked && p.contentLength == ULLONG_MAX && (p.kind.Request? || Bodiless(p.statusCode))
    case Sized(data) => !p.flags.chunked && p.contentLength == |data| < ULLONG_MAX
    case ToEof(data) => EndsWithConnection(p)
    case InChunks(_, _, _, _) => p.flags.chunked && ValidChunked(b)
  }

  /** What the headers of a message with no start line of its own yet mean. */
  function HeadFraming(hs: seq<Header>): Framing
    requires ValidHeaders(hs)
  {
    Meaning(Framing(NO_FLAGS, ULLONG_MAX), hs)
  }

  /** The message changes the protocol. */
  predicate Upgrades(p: Parser, hs: seq<Header>)
    requires ValidHeaders(hs)
  {
    HeadFraming(hs).flags.upgrade || p.httpMethod.CONNECT?
  }

  /** The headers announce the body. A message that changes the protocol has none, nor has one whose body
      the callback asks to skip (`skip`), whatever they say. */
  predicate Announced(p: Parser, hs: seq<Header>, b: Body, skip: bool)
    requires ValidHeaders(hs)
  {
    var f := HeadFraming(hs);
    if Upgrades(p, hs) || skip then b.NoBody?
    else Carries(p.(flags := f.flags, contentLength := f.contentLength), b)
  }

  /** Everything after the start line. */
  function RestText(hs: seq<Header>, end: seq<Octet>, b: Body): seq<Octet> { Lines(hs) + (end + BodyText(b)) }

  function RestEvents(hs: seq<Header>, b: Body): seq<Event> { HeaderEvents(hs) + ([HeadersComplete] + BodyEvents(b)) }

  /** The run once the message is over: a body without a length waits for the end of the connection. */
  function Over(b: Body, r: Run): Run { if b.ToEof? then Closed(r) else r }

  /** The flags when the message is complete: trailing headers may still change those of the headers. */
  function EndFlags(f: Flags, b: Body): Flags
    requires b.InChunks? ==> ValidHeaders(b.trailers)
  {
    if b.InChunks? then Meaning(Framing(f.(trailing := true), 0), b.trailers).flags else f
  }

  /** How many bytes the record still counts as header bytes when the message is complete. */
  function Left(b: Body): nat { if b.InChunks? then |Lines(b.trailers)| + |b.end| else 0 }

  /** What version and flags ask for (section 8.1 of RFC 2616). */
  predicate KeepsOpen(major: nat, minor: nat, f: Flags) { if major > 0 && minor > 0 then !f.close else f.keepAlive }

  function FirstState(kind: ParserType): State { if kind.Request? then StartReq else StartRes }

  /** NEW_MESSAGE */
  lemma NewMessageIs(p: Parser)
    ensures NewMessage(p) ==
            var open := KeepsOpen(p.major, p.minor, p.flags) && (p.flags.skipBody || !EndsWithConnection(p));
            if open then FirstState(p.kind) else Dead
  {
    NeedsEofIff(p);
    hide NeedsEof;
  }

  /** The state when the message is complete, from the record `p` at the end of the headers: of the messages
      that change the protocol, one that would else have a body to the end of the connection closes it. */
  function LastState(p: Parser, b: Body, skip: bool): State
    requires b.InChunks? ==> ValidHeaders(b.trailers)
  {
    if b.ToEof? then BodyIdentityEof
    else if (!b.NoBody? || skip || !EndsWithConnection(p)) && KeepsOpen(p.major, p.minor, EndFlags(p.flags, b))
    then FirstState(p.kind)
    else Dead
  }

  /** What the end of the headers and the body leave in the record `p`, whatever the log. */
  predicate Done(p: Parser, q: Parser, b: Body, skip: bool)
    requires b.InChunks? ==> ValidHeaders(b.trailers)
  {
    && q.errno.OK? && q.state == LastState(p, b, skip) && q.nread == Left(b)
    && q.kind == p.kind && q.major == p.major && q.minor == p.minor
    && q.statusCode == p.statusCode && q.httpMethod == p.httpMethod
  }

  /** The record that the callback at the end of the headers is asked about. */
  function AtHeadEnd(p: Parser, hs: seq<Header>, end: seq<Octet>): Parser
    requires ValidHeaders(hs)
  {
    Asked(After(p, hs), end)
  }

  function Asked(p: Parser, end: seq<Octet>): Parser {
    p.(state := HeadersDone, upgrade := p.flags.upgrade || p.httpMethod.CONNECT?, nread := p.nread + |end|)
  }

  lemma {:induction false} AllDataEmpty(cs: seq<Chunk>)
    requires ValidChunks(cs)
    ensures AllData(cs) == [] <==> cs == []
  {
    hide ValidSize;
  }

  lemma EndOfBody(log: seq<Event>, payload: seq<Octet>, trailers: seq<Event>)
    ensures var l := if payload == [] then log else Append(log, Data(BodyData, payload));
            AppendAll(log, (if payload == [] then [] else [Data(BodyData, payload)]) + trailers + [MessageComplete]) ==
            Append(AppendAll(l, trailers), MessageComplete)
  {
    hide Append;
    var d := if payload == [] then [] else [Data(BodyData, payload)];
    if payload != [] {
      AppendOne(log, Data(BodyData, payload));
    }
    AppendAllSplit(log, d, trailers);
    AppendAllSplit(log, d + trailers, [MessageComplete]);
    AppendOne(AppendAll(log, d + trailers), MessageComplete);
  }

  /** The empty line that ends the headers, and the body. */
  lemma BodyRun(hc: SkipBody, r: Run, end: seq<Octet>, b: Body)
    requires !Halted(r) && r.p.state.FieldStart? && IsBreak(end) && r.p.nread + |end| <= MAX_HEADER_SIZE
             && Plain(hc, r.p, end)
    requires Carries(r.p, b)
    ensures var s := Over(b, Feed(hc, r, end + BodyText(b)));
            && s == At'(r, s.p, AppendAll(Append(r.log, HeadersComplete), BodyEvents(b)), |end| + |BodyText(b)|)
            && Done(r.p, s.p, b, false) && !s.p.upgrade
  {
    hide Append, AppendAll, ChunkedText, ValidHeaders, ValidChunks, ValidSize, Feed, IsBreak, Meaning, NewMessage;
    var log := Append(r.log, HeadersComplete);
    EndOfBody(log, Payload(b), if b.InChunks? then HeaderEvents(b.trailers) else []);
    AppendNone(log);
    AppendNone(Append(log, Data(BodyData, Payload(b))));
    match b
    case NoBody =>
      NoBodyRun(hc, r, end);
      assert end + [] == end;
    case Sized(data) =>
      SizedRun(hc, r, end, data);
      NewMessageIs(BodyStart(r.p).(contentLength := 0));
      HasLength(BodyStart(r.p).(contentLength := 0));
    case ToEof(data) =>
      ToEofRun(hc, r, end, data);
    case InChunks(_, _, _, _) =>
      InChunksRun(hc, r, end, b);
  }

  lemma InChunksRun(hc: SkipBody, r: Run, end: seq<Octet>, b: Body)
    requires !Halted(r) && r.p.state.FieldStart? && IsBreak(end) && r.p.nread + |end| <= MAX_HEADER_SIZE
             && Plain(hc, r.p, end)
    requires b.InChunks? && r.p.flags.chunked && ValidChunked(b)
    ensures var s := Feed(hc, r, end + BodyText(b));
            var log := Append(r.log, HeadersComplete);
            var l := if AllData(b.chunks) == [] then log else Append(log, Data(BodyData, AllData(b.chunks)));
            && s == At'(r, s.p, Append(AppendAll(l, HeaderEvents(b.trailers)), MessageComplete), |end| + |BodyText(b)|)
            && Done(r.p, s.p, b, false) && !s.p.upgrade
  {
    hide Append, AppendAll, NewMessage, ChunkedText, ValidHeaders, ValidChunks, ValidSize, Feed, IsBreak, Meaning;
    var log := Append(r.log, HeadersComplete);
    ChunkedStart(hc, r, end);
    var q := BodyStart(r.p).(state := ChunkSizeStart);
    ChunkedRun(hc, At'(r, q, log, |end|), b.chunks, b.last, b.trailers, b.end);
    AllDataEmpty(b.chunks);
    FeedSplit(hc, r, end, BodyText(b));
    var p1 := Trailing(Emptied(q));
    AfterMeaning(p1, b.trailers);
    MeaningChunked(Framing(p1.flags, p1.contentLength), b.trailers);
    NewMessageIs(LineEnded(After(p1, b.trailers), b.end));
    HasLength(LineEnded(After(p1, b.trailers), b.end));
    hide EndsWithConnection;
  }

  lemma HasLength(p: Parser)
    ensures p.flags.chunked || p.contentLength == 0 ==> !EndsWithConnection(p)
  {
  }

  /** Headers do not take back that there are chunks. */
  lemma {:induction false} MeaningChunked(f: Framing, hs: seq<Header>)
    requires ValidHeaders(hs) && f.flags.chunked
    ensures Meaning(f, hs).flags.chunked
    decreases |hs|
  {
    hide HeaderMeaning, ValidHeader;
    if hs != [] {
      OneChunked(f, hs[0]);
      MeaningChunked(HeaderMeaning(f, hs[0]), hs[1..]);
    }
  }

  lemma OneChunked(f: Framing, h: Header)
    requires ValidHeader(h) && f.flags.chunked
    ensures HeaderMeaning(f, h).flags.chunked
  {
    hide ValidHeader;
  }

  lemma NoBodyRun(hc: SkipBody, r: Run, end: seq<Octet>)
    requires !Halted(r) && r.p.state.FieldStart? && IsBreak(end) && r.p.nread + |end| <= MAX_HEADER_SIZE
             && Plain(hc, r.p, end)
    requires !r.p.flags.chunked && r.p.contentLength == ULLONG_MAX && !EndsWithConnection(r.p)
    ensures var s := Feed(hc, r, end);
            && s == At'(r, s.p, Append(Append(r.log, HeadersComplete), MessageComplete), |end|)
            && Done(r.p, s.p, NoBody, false) && !s.p.upgrade
  {
    hide Append, Feed, IsBreak, NewMessage, NeedsEof, AppendAll;
    HeadEnd(hc, r, end);
    NeedsEofIff(BodyStart(r.p));
    NewMessageIs(BodyStart(r.p));
    AppendOne(Append(r.log, HeadersComplete), MessageComplete);
  }

  lemma ChunkedStart(hc: SkipBody, r: Run, end: seq<Octet>)
    requires !Halted(r) && r.p.state.FieldStart? && IsBreak(end) && r.p.nread + |end| <= MAX_HEADER_SIZE
             && Plain(hc, r.p, end)
    requires r.p.flags.chunked
    ensures Feed(hc, r, end) ==
            At'(r, BodyStart(r.p).(state := ChunkSizeStart), Append(r.log, HeadersComplete), |end|)
  {
    hide Append, Feed, IsBreak;
    HeadEnd(hc, r, end);
    AppendNone(Append(r.log, HeadersComplete));
  }

  /** The end of the headers of a message without a body of its own: one that changes the protocol, where
      the call returns, or one whose body the callback asks to skip. */
  lemma BareEndRun(hc: SkipBody, r: Run, end: seq<Octet>)
    requires !Halted(r) && r.p.state.FieldStart? && IsBreak(end) && r.p.nread + |end| <= MAX_HEADER_SIZE
    requires !r.p.flags.trailing && !r.p.flags.skipBody && (Asked(r.p, end).upgrade || hc(Asked(r.p, end)))
    ensures var s := Feed(hc, r, end);
            && s ==
                 Run(s.p, AppendAll(Append(r.log, HeadersComplete), [MessageComplete]), r.consumed + |end|, s.p.upgrade)
            && Done(r.p, s.p, NoBody, hc(Asked(r.p, end))) && s.p.upgrade == Asked(r.p, end).upgrade
  {
    hide Append, AppendAll, Feed, IsBreak, StepHeadersAlmostDone;
    BareEndStep(hc, r.p, end);
    EndRun(hc, r, end);
    AppendCons(r.log, HeadersComplete, [MessageComplete]);
    assert [HeadersComplete] + [MessageComplete] == [HeadersComplete, MessageComplete];
  }

  lemma BareEndStep(hc: SkipBody, p: Parser, end: seq<Octet>)
    requires p.errno.OK? && !p.flags.trailing && !p.flags.skipBody && (Asked(p, end).upgrade || hc(Asked(p, end)))
    ensures var e := StepHeadersAlmostDone(hc, Ending(p, end), LF);
            && e.events == [HeadersComplete, MessageComplete] && e.exit == e.p.upgrade == Asked(p, end).upgrade
            && Done(p, e.p, NoBody, hc(Asked(p, end)))
  {
    hide NewMessage, EndsWithConnection;
    var q := if hc(Asked(p, end)) then Asked(p, end).(flags := p.flags.(skipBody := true)) else Asked(p, end);
    NewMessageIs(q.(nread := 0));
    SameEnd(q.(nread := 0), p);
  }

  lemma SameEnd(p: Parser, q: Parser)
    requires p.kind == q.kind && p.statusCode == q.statusCode && p.flags.chunked == q.flags.chunked
    requires p.contentLength == q.contentLength
    ensures EndsWithConnection(p) == EndsWithConnection(q)
  {
  }

  /** Headers and body, after a start line. */
  lemma RestRun(hc: SkipBody, r: Run, hs: seq<Header>, end: seq<Octet>, b: Body)
    requires !Halted(r) && r.p.state.FieldStart? && ValidHeaders(hs) && IsBreak(end)
    requires r.p.flags == NO_FLAGS && r.p.contentLength == ULLONG_MAX
    requires Announced(r.p, hs, b, hc(AtHeadEnd(r.p, hs, end)))
    requires r.p.nread + |Lines(hs)| + |end| <= MAX_HEADER_SIZE
    ensures b.InChunks? ==> ValidHeaders(b.trailers)
    ensures var s := Over(b, Feed(hc, r, RestText(hs, end, b)));
            && s == Run(s.p, AppendAll(r.log, RestEvents(hs, b)), r.consumed + |RestText(hs, end, b)|, s.p.upgrade)
            && Done(r.p.(flags := HeadFraming(hs).flags, contentLength := HeadFraming(hs).contentLength), s.p, b,
                    hc(AtHeadEnd(r.p, hs, end)))
            && s.p.upgrade == Upgrades(r.p, hs)
  {
    hide Append, AppendAll, NewMessage, BodyText, Lines, Meaning, After, Feed, ChunkedText, ValidSize, ValidChunks,
         Carries, ValidHeaders, IsBreak, LastState;
    var tail := end + BodyText(b);
    AfterMeaning(r.p, hs);
    MeaningTrailing(Framing(NO_FLAGS, ULLONG_MAX), hs);
    BreakIsNoWs(end, BodyText(b));
    LinesRun(hc, r, hs, tail);
    var log := AppendAll(r.log, HeaderEvents(hs));
    var q := After(r.p, hs);
    var r1 := At'(r, q, log, |Lines(hs)|);
    TrailersAreValid(r.p, hs, b, hc(AtHeadEnd(r.p, hs, end)));
    LastStateSame(r.p.(flags := q.flags, contentLength := q.contentLength), q, b, hc(AtHeadEnd(r.p, hs, end)));
    AppendAllSplit(r.log, HeaderEvents(hs), [HeadersComplete] + BodyEvents(b));
    AppendCons(log, HeadersComplete, BodyEvents(b));
    if Upgrades(r.p, hs) || hc(AtHeadEnd(r.p, hs, end)) {
      BareEndRun(hc, r1, end);
      NoBodyParts();
      assert tail == end;
    } else {
      CarriesSame(r.p.(flags := q.flags, contentLength := q.contentLength), q, b);
      BodyRun(hc, r1, end, b);
    }
  }

  lemma TrailersAreValid(p: Parser, hs: seq<Header>, b: Body, skip: bool)
    requires ValidHeaders(hs) && Announced(p, hs, b, skip)
    ensures b.InChunks? ==> ValidHeaders(b.trailers)
  {
    hide ValidHeaders;
  }

  lemma LastStateSame(p: Parser, q: Parser, b: Body, skip: bool)
    requires b.InChunks? ==> ValidHeaders(b.trailers)
    requires p.flags == q.flags && p.contentLength == q.contentLength && p.kind == q.kind
             && p.statusCode == q.statusCode
    requires p.major == q.major && p.minor == q.minor
    ensures LastState(p, b, skip) == LastState(q, b, skip)
  {
    hide Meaning, ValidHeaders;
  }

  lemma BreakIsNoWs(end: seq<Octet>, t: seq<Octet>)
    requires IsBreak(end)
    ensures end + t != [] && !IsWs((end + t)[0]) && |end| >= 1
  {
  }

  lemma NoBodyParts()
    ensures BodyText(NoBody) == [] && BodyEvents(NoBody) == [MessageComplete]
  {
  }

  lemma CarriesSame(p: Parser, q: Parser, b: Body)
    requires Carries(p, b)
    requires p.flags == q.flags && p.contentLength == q.contentLength && p.kind == q.kind
    requires p.kind.Request? || p.statusCode == q.statusCode
    ensures Carries(q, b) && (b.InChunks? ==> ValidHeaders(b.trailers))
  {
    hide ValidHeaders;
  }

  lemma AnnouncedSame(p: Parser, q: Parser, hs: seq<Header>, b: Body, skip: bool)
    requires ValidHeaders(hs) && Announced(p, hs, b, skip)
    requires p.kind == q.kind && (p.kind.Request? || p.statusCode == q.statusCode)
    requires p.httpMethod.CONNECT? == q.httpMethod.CONNECT?
    ensures Announced(q, hs, b, skip)
  {
    hide Carries;
    var f := HeadFraming(hs);
    if !(Upgrades(p, hs) || skip) {
      CarriesSame(p.(flags := f.flags, contentLength := f.contentLength),
                  q.(flags := f.flags, contentLength := f.contentLength), b);
    }
  }
}
