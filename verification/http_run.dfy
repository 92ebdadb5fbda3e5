/** Runs of the parser over byte sequences, and what every run from http_parser_init keeps. */
module HttpRun {
  import opened HttpTypes
  import opened HttpStep

  /** A call in progress: the record, the callbacks so far, the bytes consumed, and whether the call
      has returned early because the connection changes protocol. */
  datatype Run = Run(p: Parser, log: seq<Event>, consumed: nat, stopped: bool)

  predicate Halted(r: Run) { r.stopped || !r.p.errno.OK? }

  function Advance(hc: SkipBody, r: Run, ch: Octet): Run {
    var e := Turn(hc, r.p, ch);
    Run(e.p, AppendAll(r.log, e.events), if e.p.errno.OK? then r.consumed + 1 else r.consumed, e.exit)
  }

  /** The bytes one after the other, up to an error or an upgrade. */
  function Feed(hc: SkipBody, r: Run, bytes: seq<Octet>): Run
    decreases |bytes|
  {
    if bytes == [] || Halted(r) then r else Feed(hc, Advance(hc, r, bytes[0]), bytes[1..])
  }

  /** Feeding a concatenation is feeding its parts in turn. */
  lemma {:induction false} FeedSplit(hc: SkipBody, r: Run, a: seq<Octet>, b: seq<Octet>)
    ensures Feed(hc, r, a + b) == Feed(hc, Feed(hc, r, a), b)
    decreases |a|
  {
    if a == [] {
      assert a + b == b;
    } else if !Halted(r) {
      assert (a + b)[0] == a[0] && (a + b)[1..] == a[1..] + b;
      FeedSplit(hc, Advance(hc, r, a[0]), a[1..], b);
    }
  }

  lemma HaltedStays(hc: SkipBody, r: Run, bytes: seq<Octet>)
    requires Halted(r)
    ensures Feed(hc, r, bytes) == r
  {
  }

  lemma FeedNone(hc: SkipBody, r: Run)
    ensures Feed(hc, r, []) == r
  {
  }

  /** The call with no bytes, at the end of the connection. */
  function Closed(r: Run): Run {
    r.(p := EofOf(r.p), log := if r.p.state.BodyIdentityEof? then Append(r.log, MessageComplete) else r.log)
  }

  // ---------- the invariant ----------

  /** How far into its literal a matching header state may be. */
  predicate IndexInv(h: HeaderState, i: nat) {
    match h
    case HC => i == 0
    case HCO => i == 1
    case HCON => i == 2
    case MatchingConnection => 3 <= i < 9
    case MatchingProxyConnection => i < 15
    case MatchingContentLength => 3 <= i < 13
    case MatchingTransferEncoding => i < 16
    case MatchingUpgrade => i < 6
    case MatchingChunked => i < 6
    case MatchingKeepAlive => i < 9
    case MatchingClose => i < 4
    case _ => i <= 16
  }

  predicate HeaderInv(p: Parser) {
    && (p.state.Field? ==> FieldHeaderState(p.headerState) && IndexInv(p.headerState, p.index))
    && (p.state.Value? ==> ValueHeaderState(p.headerState) && IndexInv(p.headerState, p.index))
    && (p.state.Value? && p.headerState.ContentLength? ==> p.contentLength < ULLONG_MAX)
  }

  function MethodLength(m: Method): nat { |MethodString(m)| }

  predicate BodyInv(p: Parser) {
    && (p.state.ChunkSizeStart? ==> p.nread == 0)
    && (ChunkState(p.state) ==> p.flags.chunked)
    && (p.state.BodyIdentity? || p.state.ChunkData? ==> 0 < p.contentLength < ULLONG_MAX)
    && (p.state.ChunkSize? || p.state.ChunkParameters? || p.state.ChunkSizeAlmostDone? ==> p.contentLength < ULLONG_MAX)
    && (p.state.ChunkDataAlmostDone? ==> p.contentLength == 0)
  }

  /** What holds between any two bytes of an error-free run: every assert of http_parser.c is a
      consequence, and every counter fits its C type. */
  predicate Inv(p: Parser) {
    && p.errno.OK?
    && !p.state.HeadersDone? && !p.state.MessageDone? && !p.state.ValueStart?
    && p.nread <= MAX_HEADER_SIZE
    && p.contentLength <= ULLONG_MAX
    && p.major <= 999 && p.minor <= 999 && p.statusCode <= 999
    && (p.state.ReqMethod? ==> 1 <= p.index <= MethodLength(p.httpMethod))
    && HeaderInv(p)
    && BodyInv(p)
  }

  lemma InitInv(kind: ParserType)
    ensures Inv(Init(kind))
  {
  }

  /** The conclusion of the preservation lemmas: no error breaks nothing, and `upgrade` is set
      exactly by the early return. */
  predicate Keeps(p: Parser, e: Effect) {
    && (e.p.errno.OK? ==> Inv(e.p))
    && (!p.upgrade && e.p.errno.OK? ==> (e.p.upgrade <==> e.exit))
    && (!e.p.errno.OK? ==> !e.exit)
  }

  lemma HeadersDoneKeeps(p: Parser)
    requires Inv(p.(state := HeadersAlmostDone, upgrade := false))
    requires p.state.HeadersDone?
    ensures var e := StepHeadersDone(p); e.p.errno.OK? && Inv(e.p) && (e.p.upgrade <==> e.exit)
  {
  }

  lemma HeadersAlmostDoneKeeps(hc: SkipBody, p: Parser, ch: Octet)
    requires Inv(p) && p.state.HeadersAlmostDone?
    ensures Keeps(p, StepHeadersAlmostDone(hc, p, ch))
    ensures ch == LF ==> StepHeadersAlmostDone(hc, p, ch).p.errno.OK?
  {
    if ch == LF && !p.flags.trailing {
      var q := p.(state := HeadersDone, upgrade := p.flags.upgrade || p.httpMethod.CONNECT?);
      var q' := if hc(q) then q.(flags := q.flags.(skipBody := true)) else q;
      HeadersDoneKeeps(q');
    }
  }

  lemma FieldStartKeeps(hc: SkipBody, p: Parser, ch: Octet)
    requires Inv(p) && p.state.FieldStart?
    ensures Keeps(p, StepFieldStart(hc, p, ch))
  {
    hide StepHeadersAlmostDone, MethodLength;
    if ch == LF {
      HeadersAlmostDoneKeeps(hc, p.(state := HeadersAlmostDone), ch);
    }
  }

  lemma MatchLiteralKeeps(p: Parser, c: Octet, lit: string, done: HeaderState)
    requires p.index + 1 < |lit|
    ensures var q := MatchLiteral(p, c, lit, done);
            && q == p.(index := p.index + 1, headerState := q.headerState)
            && (q.headerState == General || q.headerState == done
                || (q.headerState == p.headerState && q.index + 1 < |lit|))
  {
  }

  lemma FieldByteKeeps(p: Parser, ch: Octet)
    requires FieldHeaderState(p.headerState) && IndexInv(p.headerState, p.index)
    ensures var q := FieldByte(p, ch);
            && q == p.(index := q.index, headerState := q.headerState)
            && FieldHeaderState(q.headerState) && IndexInv(q.headerState, q.index)
  {
    hide MatchLiteral;
    var c := Token(ch);
    match p.headerState
    case MatchingConnection => MatchLiteralKeeps(p, c, CONNECTION, Connection);
    case MatchingProxyConnection => MatchLiteralKeeps(p, c, PROXY_CONNECTION, Connection);
    case MatchingContentLength => MatchLiteralKeeps(p, c, CONTENT_LENGTH, ContentLength);
    case MatchingTransferEncoding => MatchLiteralKeeps(p, c, TRANSFER_ENCODING, TransferEncoding);
    case MatchingUpgrade => MatchLiteralKeeps(p, c, UPGRADE, Upgrade);
    case _ =>
  }

  lemma FieldKeeps(p: Parser, ch: Octet)
    requires Inv(p) && p.state.Field?
    ensures Keeps(p, StepField(p, ch))
  {
    hide MethodLength, FieldByte, IsToken;
    FieldByteKeeps(p, ch);
  }

  lemma ValueStartKeeps(p: Parser, ch: Octet)
    requires Inv(p.(state := ValueDiscardWs))
    ensures Keeps(p, StepValueStart(p, ch))
  {
    hide MethodLength;
  }

  lemma ScaledIsExact(t: nat, base: nat, digit: nat)
    requires base == 10 || base == 16
    requires digit < base && t <= (ULLONG_MAX - base) / base
    ensures Scaled(t, base, digit) == t * base + digit < ULLONG_MAX
  {
    if base == 10 {
      assert t * base <= ULLONG_MAX - 10;
    } else {
      assert t * base <= ULLONG_MAX - 16;
    }
  }

  lemma ValueByteKeeps(p: Parser, ch: Octet)
    requires ValueHeaderState(p.headerState) && IndexInv(p.headerState, p.index)
    requires p.headerState.ContentLength? ==> p.contentLength < ULLONG_MAX
    requires p.errno.OK? && p.contentLength <= ULLONG_MAX
    ensures var e := ValueByte(p, ch);
            && e.p ==
                 p.(index := e.p.index, headerState := e.p.headerState, contentLength := e.p.contentLength,
                    errno := e.p.errno)
            && ValueHeaderState(e.p.headerState) && IndexInv(e.p.headerState, e.p.index)
            && e.p.contentLength <= ULLONG_MAX
            && (e.p.headerState.ContentLength? ==> e.p.contentLength < ULLONG_MAX)
            && !e.exit && e.events == []
  {
    hide MatchLiteral, Scaled;
    var c := Lower(ch);
    match p.headerState
    case ContentLength =>
      if IsNum(ch) && p.contentLength <= (ULLONG_MAX - 10) / 10 {
        ScaledIsExact(p.contentLength, 10, Digit(ch));
      }
    case MatchingChunked => MatchLiteralKeeps(p, c, CHUNKED, Chunked);
    case MatchingKeepAlive => MatchLiteralKeeps(p, c, KEEP_ALIVE, KeepAlive);
    case MatchingClose => MatchLiteralKeeps(p, c, CLOSE, Close);
    case _ =>
  }

  lemma ValueKeeps(p: Parser, ch: Octet)
    requires Inv(p) && p.state.Value?
    ensures Keeps(p, StepValue(p, ch))
  {
    hide MethodLength, ValueByte;
    ValueByteKeeps(p, ch);
  }

  /** `p` has been through `++parser->nread`. */
  predicate Counted(p: Parser) {
    p.nread > 0 && Inv(p.(nread := p.nread - 1)) && p.nread <= MAX_HEADER_SIZE
  }

  lemma ChunkKeeps(p: Parser, ch: Octet)
    requires ChunkState(p.state)
    requires if ParsingHeader(p.state) then Counted(p) else Inv(p)
    ensures Keeps(p, StepChunk(p, ch))
  {
    hide IndexInv, MethodLength;
    if p.state.ChunkSize? && Unhex(ch) != -1 && p.contentLength <= (ULLONG_MAX - 16) / 16 {
      ScaledIsExact(p.contentLength, 16, Unhex(ch));
    }
  }

  /** The part of the invariant that holds whatever the state. */
  predicate Bounded(p: Parser) {
    && p.nread <= MAX_HEADER_SIZE && p.contentLength <= ULLONG_MAX
    && p.major <= 999 && p.minor <= 999 && p.statusCode <= 999
  }

  lemma IsBounded(p: Parser)
    requires Inv(p)
    ensures Bounded(p) && p.errno.OK?
  {
    hide HeaderInv, BodyInv, MethodLength;
  }

  /** States for which the invariant asks for no more. */
  predicate Undemanding(s: State) {
    || s.Dead? || ResponseLineState(s) || RequestVersionState(s) || UrlState(s) || s.ReqSpacesBeforeUrl?
    || StartState(s) || s.StartReq? || s.FieldStart? || (HeaderGapState(s) && !s.ValueStart?)
  }

  lemma UndemandingInv(p: Parser)
    requires Bounded(p) && p.errno.OK? && Undemanding(p.state)
    ensures Inv(p)
  {
  }

  lemma HeaderGapKeeps(hc: SkipBody, p: Parser, ch: Octet)
    requires Inv(p) && HeaderGapState(p.state)
    ensures Keeps(p, StepHeaderGap(hc, p, ch))
  {
    hide Inv, StepFieldStart, StepValueStart, HeaderFlags;
    IsBounded(p);
    NotValueStart(p);
    match p.state
    case ValueDiscardLws =>
      UndemandingInv(p.(state := FieldStart));
      FieldStartKeeps(hc, p.(state := FieldStart), ch);
      UndemandingInv(p.(state := ValueDiscardWs));
    case ValueLws =>
      UndemandingInv(p.(flags := HeaderFlags(p), state := FieldStart));
      FieldStartKeeps(hc, p.(flags := HeaderFlags(p), state := FieldStart), ch);
      UndemandingInv(p.(state := ValueDiscardWs));
      ValueStartKeeps(p.(state := ValueStart), ch);
    case ValueDiscardWs =>
      ValueStartKeeps(p, ch);
      UndemandingInv(p.(state := ValueDiscardWsAlmostDone));
      UndemandingInv(p.(state := ValueDiscardLws));
    case ValueDiscardWsAlmostDone => UndemandingInv(p.(state := ValueDiscardLws));
    case HeaderAlmostDone => UndemandingInv(p.(state := ValueLws));
  }

  lemma NotValueStart(p: Parser)
    requires Inv(p)
    ensures !p.state.ValueStart?
  {
  }

  lemma ResponseLineKeeps(p: Parser, ch: Octet)
    requires Inv(p) && ResponseLineState(p.state)
    ensures Keeps(p, StepResponseLine(p, ch))
  {
    hide Inv;
    IsBounded(p);
    ResponseLineStays(p, ch);
    hide StepResponseLine, Undemanding, Bounded;
    if StepResponseLine(p, ch).p.errno.OK? {
      UndemandingInv(StepResponseLine(p, ch).p);
    }
  }

  lemma ResponseLineStays(p: Parser, ch: Octet)
    requires Bounded(p) && p.errno.OK? && ResponseLineState(p.state)
    ensures var e := StepResponseLine(p, ch);
            !e.exit && e.p.upgrade == p.upgrade && (e.p.errno.OK? ==> Bounded(e.p) && Undemanding(e.p.state))
  {
  }

  lemma MethodKeeps(p: Parser, ch: Octet)
    requires Inv(p) && p.state.ReqMethod?
    ensures Keeps(p, StepMethod(p, ch))
  {
    hide Correct;
    if p.index < MethodLength(p.httpMethod) {
      CorrectKeeps(p.httpMethod, p.index, ch);
      hide MethodLength;
    } else {
      CorrectEnds(p.httpMethod, p.index, ch);
    }
  }

  /** A correction leads to a name that is long enough. */
  lemma CorrectKeeps(m: Method, i: nat, ch: Octet)
    requires 1 <= i
    ensures Correct(m, i, ch) != [] ==> i + 1 <= MethodLength(Correct(m, i, ch)[0])
  {
  }

  lemma CorrectEnds(m: Method, i: nat, ch: Octet)
    requires i >= MethodLength(m)
    ensures Correct(m, i, ch) == []
  {
  }

  lemma UrlKeeps(p: Parser, ch: Octet)
    requires Inv(p) && (p.state.ReqSpacesBeforeUrl? || UrlState(p.state))
    ensures Keeps(p, StepUrl(p, ch))
  {
    hide Inv;
    IsBounded(p);
    UrlStays(p, ch);
    hide StepUrl, Undemanding, Bounded;
    if StepUrl(p, ch).p.errno.OK? {
      UndemandingInv(StepUrl(p, ch).p);
    }
  }

  lemma UrlStays(p: Parser, ch: Octet)
    requires Bounded(p) && p.errno.OK? && (p.state.ReqSpacesBeforeUrl? || UrlState(p.state))
    ensures var e := StepUrl(p, ch);
            !e.exit && e.p.upgrade == p.upgrade && (e.p.errno.OK? ==> Bounded(e.p) && Undemanding(e.p.state))
  {
    UrlCharStays(ReqServerStart, ch);
    UrlCharStays(p.state, ch);
    hide ParseUrlChar;
  }

  lemma UrlCharStays(s: State, ch: Octet)
    ensures ParseUrlChar(s, ch).Dead? || UrlState(ParseUrlChar(s, ch))
  {
    hide IsUserinfoChar, IsUrlChar, IsAlpha;
  }

  lemma RequestVersionKeeps(p: Parser, ch: Octet)
    requires Inv(p) && RequestVersionState(p.state)
    ensures Keeps(p, StepRequestVersion(p, ch))
  {
    hide Inv;
    IsBounded(p);
    RequestVersionStays(p, ch);
    hide StepRequestVersion, Undemanding, Bounded;
    if StepRequestVersion(p, ch).p.errno.OK? {
      UndemandingInv(StepRequestVersion(p, ch).p);
    }
  }

  lemma RequestVersionStays(p: Parser, ch: Octet)
    requires Bounded(p) && p.errno.OK? && RequestVersionState(p.state)
    ensures var e := StepRequestVersion(p, ch);
            !e.exit && e.p.upgrade == p.upgrade && (e.p.errno.OK? ==> Bounded(e.p) && Undemanding(e.p.state))
  {
  }

  /** The first byte of a method, which a name begins with. */
  lemma MethodBegins(p: Parser)
    requires Bounded(p) && p.errno.OK? && p.state.ReqMethod? && 1 <= p.index <= 2
             && (p.index == 2 ==> p.httpMethod == HEAD)
    ensures Inv(p)
  {
  }

  lemma StartKeeps(p: Parser, ch: Octet)
    requires Inv(p) && (StartState(p.state) || p.state.StartReq?)
    ensures p.state.StartReq? ==> Keeps(p, StepStartReq(p, ch))
    ensures !p.state.StartReq? ==> Keeps(p, StepStart(p, ch))
  {
    hide Inv;
    IsBounded(p);
    StartStays(p, ch);
    hide StepStart, StepStartReq, Undemanding, Bounded;
    var e := if p.state.StartReq? then StepStartReq(p, ch) else StepStart(p, ch);
    if e.p.errno.OK? {
      if e.p.state.ReqMethod? {
        MethodBegins(e.p);
      } else {
        UndemandingInv(e.p);
      }
    }
  }

  /** Where the first bytes of a message lead. */
  predicate Started(p: Parser, e: Effect) {
    && !e.exit && e.p.upgrade == p.upgrade
    && (e.p.errno.OK? ==>
          Bounded(e.p)
          && if e.p.state.ReqMethod? then 1 <= e.p.index <= 2 && (e.p.index == 2 ==> e.p.httpMethod == HEAD)
             else Undemanding(e.p.state))
  }

  lemma StartStays(p: Parser, ch: Octet)
    requires Bounded(p) && p.errno.OK? && (StartState(p.state) || p.state.StartReq?)
    ensures p.state.StartReq? ==> Started(p, StepStartReq(p, ch))
    ensures !p.state.StartReq? ==> Started(p, StepStart(p, ch))
  {
    StartReqStays(p.(state := StartReq), ch);
    StartReqStays(p.(flags := NO_FLAGS, contentLength := ULLONG_MAX, kind := Request, state := StartReq), ch);
    hide StepStartReq;
  }

  lemma StartReqStays(p: Parser, ch: Octet)
    requires Bounded(p) && p.errno.OK? && p.state.StartReq?
    ensures Started(p, StepStartReq(p, ch))
  {
    hide FirstGuess;
  }

  /** One byte of an error-free run keeps the invariant. */
  lemma TurnKeeps(hc: SkipBody, p: Parser, ch: Octet)
    requires Inv(p)
    ensures Keeps(p, Turn(hc, p, ch))
  {
    hide StepField, StepValue, StepFieldStart, StepHeadersAlmostDone, StepHeaderGap, StepChunk;
    hide StepResponseLine, StepMethod, StepUrl, StepRequestVersion, StepStart, StepStartReq;
    var q := if ParsingHeader(p.state) then p.(nread := p.nread + 1) else p;
    if q.nread <= MAX_HEADER_SIZE {
      if ChunkState(q.state) {
        ChunkKeeps(q, ch);
      } else {
        assert Inv(q);
        if q.state.Field? { FieldKeeps(q, ch); }
        else if q.state.Value? { ValueKeeps(q, ch); }
        else if q.state.FieldStart? { FieldStartKeeps(hc, q, ch); }
        else if q.state.HeadersAlmostDone? { HeadersAlmostDoneKeeps(hc, q, ch); }
        else if HeaderGapState(q.state) { HeaderGapKeeps(hc, q, ch); }
        else if ResponseLineState(q.state) { ResponseLineKeeps(q, ch); }
        else if q.state.ReqMethod? { MethodKeeps(q, ch); }
        else if q.state.ReqSpacesBeforeUrl? || UrlState(q.state) { UrlKeeps(q, ch); }
        else if RequestVersionState(q.state) { RequestVersionKeeps(q, ch); }
        else if StartState(q.state) || q.state.StartReq? { StartKeeps(q, ch); }
      }
    }
  }

  /** Every run keeps the invariant, and consumes no more than it is given. */
  lemma {:induction false} FeedKeeps(hc: SkipBody, r: Run, bytes: seq<Octet>)
    requires Inv(r.p) && !r.stopped
    ensures var r' := Feed(hc, r, bytes);
            && (r'.p.errno.OK? ==> Inv(r'.p))
            && (r'.p.errno.OK? && !r.p.upgrade ==> (r'.p.upgrade <==> r'.stopped))
            && (!r'.p.errno.OK? ==> !r'.stopped)
            && r.consumed <= r'.consumed <= r.consumed + |bytes|
            && (!Halted(r') ==> r'.consumed == r.consumed + |bytes|)
    decreases |bytes|
  {
    if bytes != [] {
      TurnKeeps(hc, r.p, bytes[0]);
      var s := Advance(hc, r, bytes[0]);
      if Halted(s) {
        assert Feed(hc, s, bytes[1..]) == s;
      } else {
        FeedKeeps(hc, s, bytes[1..]);
      }
    }
  }
}
