/** What the parser refuses, and how: for each state the bytes that end the run with an error. */
module HttpErrors {
  import opened HttpTypes
  import opened HttpStep
  import opened HttpRun
  import opened HttpClasses

  predicate IsDigit(c: Octet) { '0' <= c <= '9' }

  predicate IsHex(c: Octet) { '0' <= c <= '9' || 'a' <= c <= 'f' || 'A' <= c <= 'F' || c as int >= 128 }

  /** A part of a version or a status code goes on with one more digit: it must stay below 1000. */
  predicate TooLong(n: nat, c: Octet) { IsDigit(c) && n * 10 + (c as int - '0' as int) > 999 }

  /** The letters that a method can begin with. */
  predicate IsFirstLetter(c: Octet) { c in "CDGHLMNOPRSTU" }

  /** The bytes that a state takes, where it refuses the others. */
  predicate Takes(s: State, c: Octet) {
    match s
    case Dead => c == LF || c == CR
    case StartRes => c == 'H' || c == LF || c == CR
    case ResOrRespH => c == 'E' || c == 'T'
    case ResH | ResHT | ReqHttpH | ReqHttpHT => c == 'T'
    case ResHTT | ReqHttpHTT => c == 'P'
    case ResHTTP | ReqHttpHTTP => c == '/'
    case ResFirstMajor | ResFirstMinor | ReqFirstMinor => IsDigit(c)
    case ResMajor | ReqMajor => c == '.' || IsDigit(c)
    case ResMinor | ResFirstStatusCode => c == ' ' || IsDigit(c)
    case ResStatusCode => c == LF || c == CR || c == ' ' || IsDigit(c)
    case ResLineAlmostDone | ReqLineAlmostDone | ValueDiscardWsAlmostDone | HeaderAlmostDone |
         HeadersAlmostDone | ChunkSizeAlmostDone | ChunkDataDone => c == LF
    case StartReqOrRes | StartReq => c == LF || c == CR || IsFirstLetter(c)
    case ReqHttpStart => c == 'H' || c == ' '
    case ReqFirstMajor => '1' <= c <= '9'
    case ReqMinor => c == LF || c == CR || IsDigit(c)
    case ChunkDataAlmostDone => c == CR
    case _ => true
  }

  /** The error for the others. */
  function ErrorOf(s: State): Errno {
    match s
    case Dead => CLOSED_CONNECTION
    case StartRes | ResOrRespH | ReqHttpStart => INVALID_CONSTANT
    case ResH | ResHT | ResHTT | ResHTTP | ResLineAlmostDone | ReqHttpH | ReqHttpHT | ReqHttpHTT | ReqHttpHTTP |
         ValueDiscardWsAlmostDone | HeaderAlmostDone | HeadersAlmostDone | ChunkSizeAlmostDone |
         ChunkDataAlmostDone | ChunkDataDone => STRICT
    case ResFirstMajor | ResMajor | ResFirstMinor | ResMinor | ReqFirstMajor | ReqMajor | ReqFirstMinor |
         ReqMinor => INVALID_VERSION
    case ResFirstStatusCode | ResStatusCode => INVALID_STATUS
    case StartReqOrRes | StartReq => INVALID_METHOD
    case ReqLineAlmostDone => LF_EXPECTED
    case _ => OK
  }

  /** The beginning of a header line, or the empty line. */
  function FieldRefused(c: Octet): Errno { if c == CR || c == LF || IsToken(c) then OK else INVALID_HEADER_TOKEN }

  /** The first byte of a value. */
  function FirstRefused(p: Parser, c: Octet): Errno {
    if p.headerState.ContentLength? && !IsDigit(c) then INVALID_CONTENT_LENGTH else OK
  }

  /** The error that a byte brings, if any. */
  function Refused(p: Parser, c: Octet): Errno {
    match p.state
    case FieldStart => FieldRefused(c)
    case Field => if c == ':' then OK else FieldRefused(c)
    case ValueDiscardWs => if c == ' ' || c == TAB || c == CR || c == LF then OK else FirstRefused(p, c)
    case ValueDiscardLws => if c == ' ' || c == TAB then OK else FieldRefused(c)
    case ValueLws => if c == ' ' || c == TAB then FirstRefused(p, c) else FieldRefused(c)
    case Value =>
      if !p.headerState.ContentLength? || c == ' ' || c == CR || c == LF then OK
      else if IsDigit(c) && p.contentLength <= 1844674407370955160 then OK
      else INVALID_CONTENT_LENGTH
    case ChunkSizeStart => if IsHex(c) then OK else INVALID_CHUNK_SIZE
    case ChunkSize =>
      if c == CR || c == ';' || c == ' ' then OK
      else if !IsHex(c) then INVALID_CHUNK_SIZE
      else if p.contentLength <= 1152921504606846974 then OK
      else INVALID_CONTENT_LENGTH
    case _ => if Takes(p.state, c) && !TooLong(NumberOf(p), c) then OK else ErrorOf(p.state)
  }

  /** What the digits so far stand for, where there are some. */
  function NumberOf(p: Parser): nat {
    match p.state
    case ResMajor | ReqMajor => p.major
    case ResMinor | ReqMinor => p.minor
    case ResStatusCode => p.statusCode
    case _ => 0
  }

  /** Method and URL have errors of their own; see MethodRecognized and UrlIff. */
  predicate NamedElsewhere(s: State) { s.ReqMethod? || s.ReqSpacesBeforeUrl? || UrlState(s) }

  predicate InBody(s: State) {
    s.ChunkData? || s.ChunkDataAlmostDone? || s.ChunkDataDone? || s.BodyIdentity? || s.BodyIdentityEof?
      || s.MessageDone?
  }

  /** Every byte in every state that a run can be in: the error, or none. Outside the bodies the 81921st byte
      of the headers is one too many. */
  lemma RefusedIs(hc: SkipBody, p: Parser, c: Octet)
    requires Inv(p)
    ensures var e := Turn(hc, p, c).p.errno;
            if !InBody(p.state) && p.nread == 81920 then e == HEADER_OVERFLOW
            else if p.state.ReqMethod? then e == OK || e == INVALID_METHOD
            else if NamedElsewhere(p.state) then e == OK || e == INVALID_URL
            else e == Refused(p, c)
  {
    hide Step, Refused, StepField, StepValue, StepFieldStart, StepHeadersAlmostDone, StepHeaderGap, StepChunk, BodyByte,
         StepResponseLine, StepMethod, StepUrl, StepRequestVersion, StepStart, StepStartReq;
    var q := if ParsingHeader(p.state) then p.(nread := p.nread + 1) else p;
    StepRefused(hc, q, c);
    RefusedNread(p, q.nread, c);
    Limits();
  }

  lemma RefusedNread(p: Parser, n: nat, c: Octet)
    ensures Refused(p.(nread := n), c) == Refused(p, c)
  {
    hide IsToken, Takes, ErrorOf;
  }

  /** A record between two bytes, but for the count of header bytes. */
  predicate Between(p: Parser) {
    && p.errno.OK? && !p.state.HeadersDone? && !p.state.MessageDone? && !p.state.ValueStart?
    && (p.state.Value? ==> ValueHeaderState(p.headerState))
  }

  lemma StepRefused(hc: SkipBody, p: Parser, c: Octet)
    requires Between(p)
    ensures var e := Step(hc, p, c).p.errno;
            if p.state.ReqMethod? then e == OK || e == INVALID_METHOD
            else if NamedElsewhere(p.state) then e == OK || e == INVALID_URL
            else e == Refused(p, c)
  {
    hide Refused, StepField, StepValue, StepFieldStart, StepHeadersAlmostDone, StepHeaderGap, StepChunk, BodyByte,
         StepResponseLine, StepMethod, StepUrl, StepRequestVersion, StepStart, StepStartReq, Between;
    if p.state.Field? || p.state.Value? || p.state.FieldStart? || p.state.HeadersAlmostDone? {
      HeaderRefused(hc, p, c);
    } else if HeaderGapState(p.state) {
      GapRefused(hc, p, c);
    } else if ChunkState(p.state) {
      ChunkRefused(p, c);
    } else if ResponseLineState(p.state) {
      ResponseRefused(p, c);
    } else if NamedElsewhere(p.state) {
      NamedRefused(p, c);
    } else if RequestVersionState(p.state) {
      VersionRefused(p, c);
    } else if StartState(p.state) || p.state.StartReq? {
      StartRefused(p, c);
    } else {
      BodyIsLeft(p);
      BodyRefused(hc, p, c);
    }
  }

  lemma BodyIsLeft(p: Parser)
    requires Between(p)
    ensures || p.state.Field? || p.state.Value? || p.state.FieldStart? || p.state.HeadersAlmostDone?
            || HeaderGapState(p.state) || ChunkState(p.state) || ResponseLineState(p.state) || NamedElsewhere(p.state)
            || RequestVersionState(p.state) || StartState(p.state) || p.state.StartReq?
            || p.state.BodyIdentity? || p.state.BodyIdentityEof?
  {
  }

  lemma HeaderRefused(hc: SkipBody, p: Parser, c: Octet)
    requires Between(p) && (p.state.Field? || p.state.Value? || p.state.FieldStart? || p.state.HeadersAlmostDone?)
    ensures Step(hc, p, c).p.errno == Refused(p, c)
  {
    hide IsToken, Token, FieldByte, FieldFirst, MatchLiteral, NewMessage, StepHeadersDone, StepValue;
    if p.state.FieldStart? {
      FieldStartRefused(hc, p, c);
    } else if p.state.Field? {
      FieldByteGoesOn(p, c);
    } else if p.state.Value? {
      ValueRefused(p, c);
    } else {
      EndRefused(hc, p, c);
    }
  }

  lemma FieldByteGoesOn(p: Parser, c: Octet)
    ensures FieldByte(p, c).errno == p.errno
  {
    hide Token;
  }

  lemma EndRefused(hc: SkipBody, p: Parser, c: Octet)
    requires p.errno.OK? && p.state.HeadersAlmostDone?
    ensures StepHeadersAlmostDone(hc, p, c).p.errno == if c == LF then OK else STRICT
  {
    hide NewMessage;
  }

  lemma FieldStartRefused(hc: SkipBody, p: Parser, c: Octet)
    requires p.errno.OK? && p.state.FieldStart?
    ensures StepFieldStart(hc, p, c).p.errno == FieldRefused(c)
  {
    hide IsToken, Token, FieldFirst, StepHeadersAlmostDone;
    EndRefused(hc, p.(state := HeadersAlmostDone), c);
  }

  lemma ValueRefused(p: Parser, c: Octet)
    requires Between(p) && p.state.Value?
    ensures StepValue(p, c).p.errno == Refused(p, c)
  {
    hide MatchLiteral, Lower;
    MatchLiteralGoesOn(p, Lower(c));
    Limits();
  }

  lemma MatchLiteralGoesOn(p: Parser, c: Octet)
    ensures forall lit, done :: MatchLiteral(p, c, lit, done).errno == p.errno
  {
  }

  lemma GapRefused(hc: SkipBody, p: Parser, c: Octet)
    requires Between(p) && HeaderGapState(p.state)
    ensures StepHeaderGap(hc, p, c).p.errno == Refused(p, c)
  {
    hide StepFieldStart, StepValueStart, FieldRefused, HeaderFlags;
    FieldStartRefused(hc, p.(state := FieldStart), c);
    FieldStartRefused(hc, p.(flags := HeaderFlags(p), state := FieldStart), c);
    ValueStartRefused(p, c);
    ValueStartRefused(p.(state := ValueStart), c);
  }

  lemma ValueStartRefused(p: Parser, c: Octet)
    requires p.errno.OK?
    ensures StepValueStart(p, c).p.errno == FirstRefused(p, c)
  {
    hide Lower;
  }

  lemma ChunkRefused(p: Parser, c: Octet)
    requires Between(p) && ChunkState(p.state)
    ensures StepChunk(p, c).p.errno == Refused(p, c)
  {
    hide Refused, StepChunk;
    if p.state.ChunkSizeStart? || p.state.ChunkSize? {
      SizeRefused(p, c);
    } else {
      FrameRefused(p, c);
    }
  }

  lemma SizeRefused(p: Parser, c: Octet)
    requires Between(p) && (p.state.ChunkSizeStart? || p.state.ChunkSize?)
    ensures StepChunk(p, c).p.errno == Refused(p, c)
  {
    hide Scaled, Unhex, IsHex;
    HexIff(c);
    Limits();
  }

  lemma FrameRefused(p: Parser, c: Octet)
    requires Between(p) && ChunkState(p.state) && !p.state.ChunkSizeStart? && !p.state.ChunkSize?
    ensures StepChunk(p, c).p.errno == Refused(p, c)
  {
    hide BodyByte, IsFirstLetter;
    BodyGoesOn(p, c);
  }

  lemma HexIff(c: Octet)
    ensures Unhex(c) != -1 <==> IsHex(c)
    ensures c == CR || c == ';' || c == ' ' ==> !IsHex(c)
  {
    UnhexIff(c);
    hide Unhex;
  }

  lemma BodyGoesOn(p: Parser, c: Octet)
    ensures BodyByte(p, c).p.errno == p.errno
  {
    hide NewMessage;
  }

  lemma BodyRefused(hc: SkipBody, p: Parser, c: Octet)
    requires Between(p) && (p.state.BodyIdentity? || p.state.BodyIdentityEof?)
    ensures Step(hc, p, c).p.errno == Refused(p, c)
  {
    hide BodyByte;
    BodyGoesOn(p, c);
  }

  lemma ResponseRefused(p: Parser, c: Octet)
    requires Between(p) && ResponseLineState(p.state)
    ensures StepResponseLine(p, c).p.errno == Refused(p, c)
  {
    hide IsFirstLetter, IsToken, Refused;
    LineRefused(p, c);
  }

  lemma LineRefused(p: Parser, c: Octet)
    requires ResponseLineState(p.state) || RequestVersionState(p.state)
    ensures Refused(p, c) == if Takes(p.state, c) && !TooLong(NumberOf(p), c) then OK else ErrorOf(p.state)
  {
    hide Takes, TooLong, NumberOf, ErrorOf, IsToken;
  }

  lemma VersionRefused(p: Parser, c: Octet)
    requires Between(p) && RequestVersionState(p.state)
    ensures StepRequestVersion(p, c).p.errno == Refused(p, c)
  {
    hide Refused, StepRequestVersion;
    LineRefused(p, c);
    if p.state.ReqFirstMajor? || p.state.ReqMajor? || p.state.ReqFirstMinor? || p.state.ReqMinor? {
      NumbersRefused(p, c);
    } else {
      ConstantsRefused(p, c);
    }
  }

  lemma NumbersRefused(p: Parser, c: Octet)
    requires Between(p) && (p.state.ReqFirstMajor? || p.state.ReqMajor? || p.state.ReqFirstMinor? || p.state.ReqMinor?)
    ensures StepRequestVersion(p, c).p.errno ==
            if Takes(p.state, c) && !TooLong(NumberOf(p), c) then OK else INVALID_VERSION
    ensures ErrorOf(p.state) == INVALID_VERSION
  {
    hide IsFirstLetter;
  }

  lemma ConstantsRefused(p: Parser, c: Octet)
    requires Between(p) && RequestVersionState(p.state)
    requires !p.state.ReqFirstMajor? && !p.state.ReqMajor? && !p.state.ReqFirstMinor? && !p.state.ReqMinor?
    ensures StepRequestVersion(p, c).p.errno == if Takes(p.state, c) then OK else ErrorOf(p.state)
    ensures NumberOf(p) == 0 && !TooLong(0, c)
  {
    hide IsFirstLetter;
  }

  lemma NamedRefused(p: Parser, c: Octet)
    requires Between(p)
    ensures p.state.ReqMethod? ==> StepMethod(p, c).p.errno == OK || StepMethod(p, c).p.errno == INVALID_METHOD
    ensures p.state.ReqSpacesBeforeUrl? || UrlState(p.state) ==>
              StepUrl(p, c).p.errno == OK || StepUrl(p, c).p.errno == INVALID_URL
  {
    hide At, Correct, ParseUrlChar;
  }

  lemma StartRefused(p: Parser, c: Octet)
    requires Between(p) && (StartState(p.state) || p.state.StartReq?)
    ensures (if p.state.StartReq? then StepStartReq(p, c) else StepStart(p, c)).p.errno == Refused(p, c)
  {
    hide Lower, IsFirstLetter;
    LettersOnly(c);
  }

  lemma LettersOnly(c: Octet)
    ensures FirstGuess(c) != [] <==> IsFirstLetter(c)
    ensures FirstGuess(c) != [] ==> IsAlpha(c) && c != CR && c != LF
  {
  }

  /** The call without bytes is an error except between messages, and in a body that it ends. */
  lemma EofRefused(r: Run)
    ensures var s := r.p.state;
            if s.StartReq? || s.StartRes? || s.StartReqOrRes? || s.Dead? || s.BodyIdentityEof?
            then Closed(r).p == r.p
            else Closed(r).p == r.p.(errno := INVALID_EOF_STATE) && Closed(r).log == r.log
  {
  }
}
