/** The transition of common/http_parser/http_parser.c on one byte: the record after the byte, the
    callbacks made, and whether http_parser_execute returns early because of an upgrade.
    This is the specification that the loop of http_parser_execute is proved against. */
module HttpStep {
  import opened HttpTypes

  datatype Effect = Effect(p: Parser, events: seq<Event>, exit: bool)

  function Go(p: Parser): Effect { Effect(p, [], false) }

  function Call(p: Parser, e: Event): Effect { Effect(p, [e], false) }

  function Fail(p: Parser, e: Errno): Effect { Effect(p.(errno := e), [], false) }

  // ---------- http_message_needs_eof, http_should_keep_alive, NEW_MESSAGE ----------

  predicate NeedsEof(p: Parser) {
    if p.kind.Request? then false
    else if p.statusCode / 100 == 1 || p.statusCode == 204 || p.statusCode == 304 || p.flags.skipBody then false
    else if p.flags.chunked || p.contentLength != ULLONG_MAX then false
    else true
  }

  predicate ShouldKeepAlive(p: Parser) {
    if p.major > 0 && p.minor > 0 then
      !p.flags.close && !NeedsEof(p)
    else
      p.flags.keepAlive && !NeedsEof(p)
  }

  function NewMessage(p: Parser): State {
    if ShouldKeepAlive(p) then (if p.kind.Request? then StartReq else StartRes) else Dead
  }

  // ---------- start line of a response ----------

  function StepStart(p: Parser, ch: Octet): Effect
    requires StartState(p.state)
  {
    match p.state
    case Dead =>
      if ch == CR || ch == LF then Go(p) else Fail(p, CLOSED_CONNECTION)
    case StartReqOrRes =>
      if ch == CR || ch == LF then Go(p)
      else
        var q := p.(flags := NO_FLAGS, contentLength := ULLONG_MAX);
        if ch == 'H' then Call(q.(state := ResOrRespH), MessageBegin)
        else StepStartReq(q.(kind := Request, state := StartReq), ch)
    case ResOrRespH =>
      if ch == 'T' then Go(p.(kind := Response, state := ResHT))
      else if ch != 'E' then Fail(p, INVALID_CONSTANT)
      else Go(p.(kind := Request, httpMethod := HEAD, index := 2, state := ReqMethod))
    case StartRes =>
      // a leading CR or LF also reaches the notification
      var q := p.(flags := NO_FLAGS, contentLength := ULLONG_MAX);
      if ch == 'H' then Call(q.(state := ResH), MessageBegin)
      else if ch == CR || ch == LF then Call(q, MessageBegin)
      else Fail(q, INVALID_CONSTANT)
  }

  /** STRICT_CHECK(ch != want), then the next state. */
  function Expect(p: Parser, ch: Octet, want: Octet, next: State): Effect {
    if ch != want then Fail(p, STRICT) else Go(p.(state := next))
  }

  predicate ResponseLineState(s: State) {
    s.ResH? || s.ResHT? || s.ResHTT? || s.ResHTTP? ||
    s.ResFirstMajor? || s.ResMajor? || s.ResFirstMinor? || s.ResMinor? ||
    s.ResFirstStatusCode? || s.ResStatusCode? || s.ResStatusStart? || s.ResStatus? || s.ResLineAlmostDone?
  }

  function Digit(c: Octet): nat
    requires IsNum(c)
  {
    c as int - '0' as int
  }

  function StepResponseLine(p: Parser, ch: Octet): Effect
    requires ResponseLineState(p.state)
  {
    match p.state
    case ResH => Expect(p, ch, 'T', ResHT)
    case ResHT => Expect(p, ch, 'T', ResHTT)
    case ResHTT => Expect(p, ch, 'P', ResHTTP)
    case ResHTTP => Expect(p, ch, '/', ResFirstMajor)
    case ResFirstMajor =>
      if !IsNum(ch) then Fail(p, INVALID_VERSION)
      else Go(p.(major := Digit(ch), state := ResMajor))
    case ResMajor => StepMajor(p, ch, ResFirstMinor)
    case ResFirstMinor => StepFirstMinor(p, ch, ResMinor)
    case ResMinor =>
      if ch == ' ' then Go(p.(state := ResFirstStatusCode)) else StepMinor(p, ch)
    case ResFirstStatusCode =>
      if IsNum(ch) then Go(p.(statusCode := Digit(ch), state := ResStatusCode))
      else if ch == ' ' then Go(p)
      else Fail(p, INVALID_STATUS)
    case ResStatusCode =>
      if IsNum(ch) then
        var q := p.(statusCode := p.statusCode * 10 + Digit(ch));
        if q.statusCode > 999 then Fail(q, INVALID_STATUS) else Go(q)
      else if ch == ' ' then Go(p.(state := ResStatusStart))
      else if ch == CR then Go(p.(state := ResLineAlmostDone))
      else if ch == LF then Go(p.(state := FieldStart))
      else Fail(p, INVALID_STATUS)
    case ResStatusStart =>
      if ch == CR then Go(p.(state := ResLineAlmostDone))
      else if ch == LF then Go(p.(state := FieldStart))
      else Call(p.(state := ResStatus, index := 0), Data(StatusData, [ch]))
    case ResStatus =>
      if ch == CR then Call(p.(state := ResLineAlmostDone), Data(StatusData, []))
      else if ch == LF then Call(p.(state := FieldStart), Data(StatusData, []))
      else Call(p, Data(StatusData, [ch]))
    case ResLineAlmostDone => Expect(p, ch, LF, FieldStart)
  }

  function StepMajor(p: Parser, ch: Octet, next: State): Effect {
    if ch == '.' then Go(p.(state := next))
    else if !IsNum(ch) then Fail(p, INVALID_VERSION)
    else
      var q := p.(major := p.major * 10 + Digit(ch));
      if q.major > 999 then Fail(q, INVALID_VERSION) else Go(q)
  }

  function StepFirstMinor(p: Parser, ch: Octet, next: State): Effect {
    if !IsNum(ch) then Fail(p, INVALID_VERSION)
    else Go(p.(minor := Digit(ch), state := next))
  }

  function StepMinor(p: Parser, ch: Octet): Effect {
    if !IsNum(ch) then Fail(p, INVALID_VERSION)
    else
      var q := p.(minor := p.minor * 10 + Digit(ch));
      if q.minor > 999 then Fail(q, INVALID_VERSION) else Go(q)
  }

  // ---------- start line of a request ----------

  /** The first guess at the method, by its first letter; the later letters may correct it. */
  function FirstGuess(ch: Octet): (m: seq<Method>)
    ensures |m| <= 1
  {
    match ch
    case 'C' => [CONNECT]
    case 'D' => [DELETE]
    case 'G' => [GET]
    case 'H' => [HEAD]
    case 'L' => [LOCK]
    case 'M' => [MKCOL]
    case 'N' => [NOTIFY]
    case 'O' => [OPTIONS]
    case 'P' => [POST]
    case 'R' => [REPORT]
    case 'S' => [SUBSCRIBE]
    case 'T' => [TRACE]
    case 'U' => [UNLOCK]
    case _ => []
  }

  function StepStartReq(p: Parser, ch: Octet): Effect
    requires p.state.StartReq?
  {
    if ch == CR || ch == LF then Go(p)
    else
      var q := p.(flags := NO_FLAGS, contentLength := ULLONG_MAX);
      if !IsAlpha(ch) then Fail(q, INVALID_METHOD)
      else
        var guess := FirstGuess(ch);
        if guess == [] then Fail(q.(httpMethod := DELETE, index := 1), INVALID_METHOD)
        else Call(q.(httpMethod := guess[0], index := 1, state := ReqMethod), MessageBegin)
  }

  /** The character of a C string at an index up to its terminator. */
  function At(s: string, i: nat): char { if i < |s| then s[i] else '\0' }

  /** The method that a letter not in the guessed name switches to. */
  function Correct(m: Method, i: nat, ch: Octet): (r: seq<Method>)
    ensures |r| <= 1
  {
    if m.CONNECT? then
      if i == 1 && ch == 'H' then [CHECKOUT]
      else if i == 2 && ch == 'P' then [COPY]
      else []
    else if m.MKCOL? then
      if i == 1 && ch == 'O' then [MOVE]
      else if i == 1 && ch == 'E' then [MERGE]
      else if i == 1 && ch == '-' then [MSEARCH]
      else if i == 2 && ch == 'A' then [MKACTIVITY]
      else []
    else if m.SUBSCRIBE? then
      if i == 1 && ch == 'E' then [SEARCH] else []
    else if i == 1 && m.POST? then
      if ch == 'R' then [PROPFIND]
      else if ch == 'U' then [PUT]
      else if ch == 'A' then [PATCH]
      else []
    else if i == 2 then
      if m.PUT? then (if ch == 'R' then [PURGE] else [])
      else if m.UNLOCK? then (if ch == 'S' then [UNSUBSCRIBE] else [])
      else []
    else if i == 4 && m.PROPFIND? && ch == 'P' then [PROPPATCH]
    else []
  }

  function StepMethod(p: Parser, ch: Octet): Effect
    requires p.state.ReqMethod?
  {
    var want := At(MethodString(p.httpMethod), p.index);
    if ch == '\0' then Fail(p, INVALID_METHOD)
    else if ch == ' ' && want == '\0' then Go(p.(state := ReqSpacesBeforeUrl, index := p.index + 1))
    else if ch == want then Go(p.(index := p.index + 1))
    else
      var m := Correct(p.httpMethod, p.index, ch);
      if m == [] then Fail(p, INVALID_METHOD)
      else Go(p.(httpMethod := m[0], index := p.index + 1))
  }

  /** parse_url_char */
  function ParseUrlChar(s: State, ch: Octet): State {
    if ch == ' ' || ch == CR || ch == LF || ch == TAB || ch == 12 as char then Dead
    else match s
      case ReqSpacesBeforeUrl =>
        if ch == '/' || ch == '*' then ReqPath
        else if IsAlpha(ch) then ReqSchema
        else Dead
      case ReqSchema =>
        if IsAlpha(ch) then s else if ch == ':' then ReqSchemaSlash else Dead
      case ReqSchemaSlash => if ch == '/' then ReqSchemaSlashSlash else Dead
      case ReqSchemaSlashSlash => if ch == '/' then ReqServerStart else Dead
      case ReqServerWithAt => if ch == '@' then Dead else ParseServerChar(ch)
      case ReqServerStart => ParseServerChar(ch)
      case ReqServer => ParseServerChar(ch)
      case ReqPath =>
        if IsUrlChar(ch) then s
        else if ch == '?' then ReqQueryStart
        else if ch == '#' then ReqFragmentStart
        else Dead
      case ReqQueryStart => ParseQueryChar(ch)
      case ReqQuery => ParseQueryChar(ch)
      case ReqFragmentStart =>
        if IsUrlChar(ch) || ch == '?' then ReqFragment
        else if ch == '#' then s
        else Dead
      case ReqFragment =>
        if IsUrlChar(ch) || ch == '?' || ch == '#' then s else Dead
      case _ => Dead
  }

  function ParseServerChar(ch: Octet): State {
    if ch == '/' then ReqPath
    else if ch == '?' then ReqQueryStart
    else if ch == '@' then ReqServerWithAt
    else if IsUserinfoChar(ch) || ch == '[' || ch == ']' then ReqServer
    else Dead
  }

  function ParseQueryChar(ch: Octet): State {
    if IsUrlChar(ch) || ch == '?' then ReqQuery
    else if ch == '#' then ReqFragmentStart
    else Dead
  }

  /** One byte of a URL in state `s`. */
  function UrlByte(p: Parser, s: State, ch: Octet): Effect {
    var q := p.(state := ParseUrlChar(s, ch));
    if q.state.Dead? then Fail(q, INVALID_URL) else Call(q, Data(UrlData, [ch]))
  }

  function StepUrl(p: Parser, ch: Octet): Effect
    requires p.state.ReqSpacesBeforeUrl? || UrlState(p.state)
  {
    if p.state.ReqSpacesBeforeUrl? then
      if ch == ' ' then Go(p)
      else UrlByte(p, if p.httpMethod.CONNECT? then ReqServerStart else p.state, ch)
    else if p.state.ReqSchema? || p.state.ReqSchemaSlash? || p.state.ReqSchemaSlashSlash?
      || p.state.ReqServerStart? then
      if ch == ' ' || ch == CR || ch == LF then Fail(p, INVALID_URL) else UrlByte(p, p.state, ch)
    else if ch == ' ' then Call(p.(state := ReqHttpStart), Data(UrlData, []))
    else if ch == CR || ch == LF then
      Call(p.(major := 0, minor := 9, state := if ch == CR then ReqLineAlmostDone else FieldStart), Data(UrlData, []))
    else UrlByte(p, p.state, ch)
  }

  predicate RequestVersionState(s: State) {
    s.ReqHttpStart? || s.ReqHttpH? || s.ReqHttpHT? || s.ReqHttpHTT? || s.ReqHttpHTTP? ||
    s.ReqFirstMajor? || s.ReqMajor? || s.ReqFirstMinor? || s.ReqMinor? || s.ReqLineAlmostDone?
  }

  function StepRequestVersion(p: Parser, ch: Octet): Effect
    requires RequestVersionState(p.state)
  {
    match p.state
    case ReqHttpStart =>
      if ch == 'H' then Go(p.(state := ReqHttpH))
      else if ch == ' ' then Go(p)
      else Fail(p, INVALID_CONSTANT)
    case ReqHttpH => Expect(p, ch, 'T', ReqHttpHT)
    case ReqHttpHT => Expect(p, ch, 'T', ReqHttpHTT)
    case ReqHttpHTT => Expect(p, ch, 'P', ReqHttpHTTP)
    case ReqHttpHTTP => Expect(p, ch, '/', ReqFirstMajor)
    case ReqFirstMajor =>
      if !('1' <= ch <= '9') then Fail(p, INVALID_VERSION)
      else Go(p.(major := Digit(ch), state := ReqMajor))
    case ReqMajor => StepMajor(p, ch, ReqFirstMinor)
    case ReqFirstMinor => StepFirstMinor(p, ch, ReqMinor)
    case ReqMinor =>
      if ch == CR then Go(p.(state := ReqLineAlmostDone))
      else if ch == LF then Go(p.(state := FieldStart))
      else StepMinor(p, ch)
    case ReqLineAlmostDone =>
      if ch != LF then Fail(p, LF_EXPECTED) else Go(p.(state := FieldStart))
  }

  // ---------- header fields ----------

  /** One more character of a literal whose first `index + 1` characters have been seen. */
  function MatchLiteral(p: Parser, c: Octet, lit: string, done: HeaderState): Parser {
    var i := p.index + 1;
    p.(index := i,
       headerState := if i > |lit| || c != At(lit, i) then General
                      else if i == |lit| - 1 then done
                      else p.headerState)
  }

  function FieldByte(p: Parser, ch: Octet): Parser {
    var c := Token(ch);
    match p.headerState
    case HC => p.(index := p.index + 1, headerState := if c == 'o' then HCO else General)
    case HCO => p.(index := p.index + 1, headerState := if c == 'n' then HCON else General)
    case HCON =>
      p.(index := p.index + 1,
         headerState := if c == 'n' then MatchingConnection
                        else if c == 't' then MatchingContentLength
                        else General)
    case MatchingConnection => MatchLiteral(p, c, CONNECTION, Connection)
    case MatchingProxyConnection => MatchLiteral(p, c, PROXY_CONNECTION, Connection)
    case MatchingContentLength => MatchLiteral(p, c, CONTENT_LENGTH, ContentLength)
    case MatchingTransferEncoding => MatchLiteral(p, c, TRANSFER_ENCODING, TransferEncoding)
    case MatchingUpgrade => MatchLiteral(p, c, UPGRADE, Upgrade)
    case _ => if ch != ' ' then p.(headerState := General) else p
  }

  /** The header states the s_header_field switch handles; any other fails its assert. */
  predicate FieldHeaderState(h: HeaderState) {
    h.General? || h.HC? || h.HCO? || h.HCON? ||
    h.MatchingConnection? || h.MatchingProxyConnection? || h.MatchingContentLength? ||
    h.MatchingTransferEncoding? || h.MatchingUpgrade? ||
    h.Connection? || h.ContentLength? || h.TransferEncoding? || h.Upgrade?
  }

  function StepField(p: Parser, ch: Octet): Effect
    requires p.state.Field?
  {
    if IsToken(ch) then
      Call(if p.headerState.General? then p else FieldByte(p, ch), Data(FieldData, [ch]))
    else if ch == ':' then Call(p.(state := ValueDiscardWs), Data(FieldData, []))
    else if ch == CR then Call(p.(state := HeaderAlmostDone), Data(FieldData, []))
    else if ch == LF then Call(p.(state := FieldStart), Data(FieldData, []))
    else Fail(p, INVALID_HEADER_TOKEN)
  }

  function FieldFirst(c: Octet): HeaderState {
    if c == 'c' then HC
    else if c == 'p' then MatchingProxyConnection
    else if c == 't' then MatchingTransferEncoding
    else if c == 'u' then MatchingUpgrade
    else General
  }

  function StepFieldStart(hc: SkipBody, p: Parser, ch: Octet): Effect
    requires p.state.FieldStart?
  {
    if ch == CR then Go(p.(state := HeadersAlmostDone))
    else if ch == LF then StepHeadersAlmostDone(hc, p.(state := HeadersAlmostDone), ch)
    else if !IsToken(ch) then Fail(p, INVALID_HEADER_TOKEN)
    else
      Call(p.(index := 0, state := Field, headerState := FieldFirst(Token(ch))), Data(FieldData, [ch]))
  }

  // ---------- header values ----------

  function StepValueStart(p: Parser, ch: Octet): Effect {
    var q := p.(state := Value, index := 0);
    var c := Lower(ch);
    var e := Data(ValueData, [ch]);
    match p.headerState
    case Upgrade => Call(q.(flags := q.flags.(upgrade := true), headerState := General), e)
    case TransferEncoding => Call(q.(headerState := if c == 'c' then MatchingChunked else General), e)
    case ContentLength =>
      if !IsNum(ch) then Fail(q, INVALID_CONTENT_LENGTH) else Call(q.(contentLength := Digit(ch)), e)
    case Connection =>
      Call(q.(headerState := if c == 'k' then MatchingKeepAlive else if c == 'c' then MatchingClose else General), e)
    case _ => Call(q.(headerState := General), e)
  }

  /** uint64_t arithmetic: `t = content_length; t *= base; t += digit;` */
  function Scaled(t: nat, base: nat, digit: nat): nat {
    ((t * base) % (ULLONG_MAX + 1) + digit) % (ULLONG_MAX + 1)
  }

  /** The header states the s_header_value switch handles; Connection and TransferEncoding fail its
      assert, and the rest are never in force there. */
  predicate ValueHeaderState(h: HeaderState) {
    h.General? || h.ContentLength? ||
    h.MatchingChunked? || h.MatchingKeepAlive? || h.MatchingClose? ||
    h.Chunked? || h.KeepAlive? || h.Close?
  }

  function ValueByte(p: Parser, ch: Octet): Effect {
    var c := Lower(ch);
    match p.headerState
    case General => Go(p)
    case ContentLength =>
      if ch == ' ' then Go(p)
      else if !IsNum(ch) then Fail(p, INVALID_CONTENT_LENGTH)
      else if (ULLONG_MAX - 10) / 10 < p.contentLength then Fail(p, INVALID_CONTENT_LENGTH)
      else Go(p.(contentLength := Scaled(p.contentLength, 10, Digit(ch))))
    case MatchingChunked => Go(MatchLiteral(p, c, CHUNKED, Chunked))
    case MatchingKeepAlive => Go(MatchLiteral(p, c, KEEP_ALIVE, KeepAlive))
    case MatchingClose => Go(MatchLiteral(p, c, CLOSE, Close))
    case Chunked => Go(if ch != ' ' then p.(headerState := General) else p)
    case KeepAlive => Go(if ch != ' ' then p.(headerState := General) else p)
    case Close => Go(if ch != ' ' then p.(headerState := General) else p)
    case _ => Go(p.(headerState := General))
  }

  function StepValue(p: Parser, ch: Octet): Effect
    requires p.state.Value?
  {
    if ch == CR then Call(p.(state := HeaderAlmostDone), Data(ValueData, []))
    else if ch == LF then Call(p.(state := ValueLws), Data(ValueData, []))
    else
      var r := ValueByte(p, ch);
      if !r.p.errno.OK? then r else Call(r.p, Data(ValueData, [ch]))
  }

  predicate HeaderGapState(s: State) {
    s.ValueDiscardWs? || s.ValueDiscardWsAlmostDone? || s.ValueDiscardLws? ||
    s.HeaderAlmostDone? || s.ValueLws? || s.ValueStart?
  }

  /** The bits that the end of a header line sets. */
  function HeaderFlags(p: Parser): Flags {
    match p.headerState
    case KeepAlive => p.flags.(keepAlive := true)
    case Close => p.flags.(close := true)
    case Chunked => p.flags.(chunked := true)
    case _ => p.flags
  }

  function StepHeaderGap(hc: SkipBody, p: Parser, ch: Octet): Effect
    requires HeaderGapState(p.state)
  {
    match p.state
    case ValueDiscardWs =>
      if ch == ' ' || ch == TAB then Go(p)
      else if ch == CR then Go(p.(state := ValueDiscardWsAlmostDone))
      else if ch == LF then Go(p.(state := ValueDiscardLws))
      else StepValueStart(p, ch)
    case ValueStart => StepValueStart(p, ch)
    case ValueDiscardWsAlmostDone => Expect(p, ch, LF, ValueDiscardLws)
    case ValueDiscardLws =>
      if ch == ' ' || ch == TAB then Go(p.(state := ValueDiscardWs))
      else
        // the header value was empty
        var r := StepFieldStart(hc, p.(state := FieldStart), ch);
        r.(events := [Data(ValueData, [])] + r.events)
    case HeaderAlmostDone => Expect(p, ch, LF, ValueLws)
    case ValueLws =>
      if ch == ' ' || ch == TAB then StepValueStart(p.(state := ValueStart), ch)
      else StepFieldStart(hc, p.(flags := HeaderFlags(p), state := FieldStart), ch)
  }

  // ---------- end of the headers ----------

  function StepHeadersAlmostDone(hc: SkipBody, p: Parser, ch: Octet): Effect
    requires p.state.HeadersAlmostDone?
  {
    if ch != LF then Fail(p, STRICT)
    else if p.flags.trailing then Call(p.(state := NewMessage(p)), MessageComplete)
    else
      var q := p.(state := HeadersDone, upgrade := p.flags.upgrade || p.httpMethod.CONNECT?);
      var q' := if hc(q) then q.(flags := q.flags.(skipBody := true)) else q;
      var r := StepHeadersDone(q');
      r.(events := [HeadersComplete] + r.events)
  }

  /** s_headers_done, entered with a line feed. */
  function StepHeadersDone(p: Parser): Effect {
    var q := p.(nread := 0);
    if q.upgrade then Effect(q.(state := NewMessage(q)), [MessageComplete], true)
    else if q.flags.skipBody then Call(q.(state := NewMessage(q)), MessageComplete)
    else if q.flags.chunked then Go(q.(state := ChunkSizeStart))
    else if q.contentLength == 0 then Call(q.(state := NewMessage(q)), MessageComplete)
    else if q.contentLength != ULLONG_MAX then Go(q.(state := BodyIdentity))
    else if q.kind.Request? || !NeedsEof(q) then Call(q.(state := NewMessage(q)), MessageComplete)
    else Go(q.(state := BodyIdentityEof))
  }

  // ---------- body ----------

  predicate ChunkState(s: State) {
    s.ChunkSizeStart? || s.ChunkSize? || s.ChunkParameters? || s.ChunkSizeAlmostDone? ||
    s.ChunkData? || s.ChunkDataAlmostDone? || s.ChunkDataDone?
  }

  function StepChunk(p: Parser, ch: Octet): Effect
    requires ChunkState(p.state)
  {
    match p.state
    case ChunkSizeStart =>
      if Unhex(ch) == -1 then Fail(p, INVALID_CHUNK_SIZE)
      else Go(p.(contentLength := Unhex(ch), state := ChunkSize))
    case ChunkSize =>
      if ch == CR then Go(p.(state := ChunkSizeAlmostDone))
      else if Unhex(ch) == -1 then
        if ch == ';' || ch == ' ' then Go(p.(state := ChunkParameters)) else Fail(p, INVALID_CHUNK_SIZE)
      else if (ULLONG_MAX - 16) / 16 < p.contentLength then Fail(p, INVALID_CONTENT_LENGTH)
      else Go(p.(contentLength := Scaled(p.contentLength, 16, Unhex(ch))))
    case ChunkParameters =>
      if ch == CR then Go(p.(state := ChunkSizeAlmostDone)) else Go(p)
    case ChunkSizeAlmostDone =>
      if ch != LF then Fail(p, STRICT)
      else if p.contentLength == 0 then
        Go(p.(nread := 0, flags := p.flags.(trailing := true), state := FieldStart))
      else Go(p.(nread := 0, state := ChunkData))
    case ChunkData => BodyByte(p, ch)
    case ChunkDataAlmostDone => Expect(p, ch, CR, ChunkDataDone)
    case ChunkDataDone =>
      if ch != LF then Fail(p, STRICT) else Go(p.(nread := 0, state := ChunkSizeStart))
  }

  /** One byte of a body of known length. */
  function BodyByte(p: Parser, ch: Octet): Effect {
    var left := if p.contentLength == 0 then 0 else p.contentLength - 1;  // an assert excludes 0
    var q := p.(contentLength := left);
    if left > 0 then Call(q, Data(BodyData, [ch]))
    else if p.state.ChunkData? then Call(q.(state := ChunkDataAlmostDone), Data(BodyData, [ch]))
    else Effect(q.(state := NewMessage(q)), [Data(BodyData, [ch]), MessageComplete], false)
  }

  predicate StartState(s: State) {
    s.Dead? || s.StartReqOrRes? || s.ResOrRespH? || s.StartRes?
  }

  /** The switch of http_parser_execute. */
  function Step(hc: SkipBody, p: Parser, ch: Octet): Effect {
    if p.state.Field? then StepField(p, ch)
    else if p.state.Value? then StepValue(p, ch)
    else if p.state.FieldStart? then StepFieldStart(hc, p, ch)
    else if p.state.HeadersAlmostDone? then StepHeadersAlmostDone(hc, p, ch)
    else if HeaderGapState(p.state) then StepHeaderGap(hc, p, ch)
    else if ChunkState(p.state) then StepChunk(p, ch)
    else if p.state.BodyIdentity? then BodyByte(p, ch)
    else if p.state.BodyIdentityEof? then Call(p, Data(BodyData, [ch]))
    else if ResponseLineState(p.state) then StepResponseLine(p, ch)
    else if p.state.ReqMethod? then StepMethod(p, ch)
    else if p.state.ReqSpacesBeforeUrl? || UrlState(p.state) then StepUrl(p, ch)
    else if RequestVersionState(p.state) then StepRequestVersion(p, ch)
    else if StartState(p.state) then StepStart(p, ch)
    else if p.state.StartReq? then StepStartReq(p, ch)
    else if p.state.HeadersDone? then
      if ch != LF then Fail(p, STRICT) else StepHeadersDone(p)
    else Call(p.(state := NewMessage(p)), MessageComplete)  // MessageDone
  }

  /** What a call with no bytes does to the record. */
  function EofOf(p: Parser): Parser {
    if p.state.BodyIdentityEof? || p.state.Dead? || p.state.StartReqOrRes? || p.state.StartRes? || p.state.StartReq?
    then p
    else p.(errno := INVALID_EOF_STATE)
  }

  /** One turn of the loop: the header size limit, then the switch. */
  function Turn(hc: SkipBody, p: Parser, ch: Octet): Effect {
    if ParsingHeader(p.state) then
      var q := p.(nread := p.nread + 1);
      if q.nread > MAX_HEADER_SIZE then Fail(q, HEADER_OVERFLOW) else Step(hc, q, ch)
    else Step(hc, p, ch)
  }
}
