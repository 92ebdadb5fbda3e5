/** The http_parser record and http_parser_execute, updated in place, proved against the
    byte-by-byte transition. */
module HttpParserImpl {
  import opened HttpTypes
  import opened HttpStep
  import opened HttpRun
  import opened HttpBulk

  /** The log that a list of callbacks amounts to. */
  function Log(calls: seq<Event>): seq<Event> { AppendAll([], calls) }

  lemma LogCall(calls: seq<Event>, e: Event)
    ensures Log(calls + [e]) == Append(Log(calls), e)
  {
    AppendAllSplit([], calls, [e]);
  }

  /** What a log shows of a field whose bytes `data[m..p]` are not reported yet. */
  function WithOpen(log: seq<Event>, k: DataKind, data: seq<Octet>, m: nat, p: nat): seq<Event>
    requires m <= p <= |data|
  {
    if m < p then Append(log, Data(k, data[m..p])) else log
  }

  /** Leaving one more byte under the mark, or reporting the field, is what the byte-by-byte log shows. */
  lemma OpenByte(log: seq<Event>, k: DataKind, data: seq<Octet>, m: nat, p: nat)
    requires m <= p < |data|
    ensures WithOpen(log, k, data, m, p + 1) == Append(WithOpen(log, k, data, m, p), Data(k, [data[p]]))
    ensures Append(log, Data(k, data[m..p])) == Append(WithOpen(log, k, data, m, p), Data(k, []))
  {
    assert [] + [data[p]] == [data[p]];
    assert data[m..p] + [data[p]] == data[m..p + 1];
    assert data[m..p] + [] == data[m..p];
    AppendData(log, k, data[m..p], [data[p]]);
    AppendData(log, k, data[m..p], []);
    if m == p {
      assert data[m..p] == [] && data[m..p + 1] == [data[p]];
    }
  }

  /** The field whose bytes a state collects: the only mark that may be set in it. */
  function MarkOf(s: State): seq<DataKind> {
    if UrlState(s) then [UrlData]
    else if s.ResStatus? then [StatusData]
    else if s.Field? then [FieldData]
    else if s.Value? then [ValueData]
    else if s.BodyIdentity? || s.BodyIdentityEof? || s.ChunkData? || s.ChunkDataAlmostDone? then [BodyData]
    else []
  }

  lemma CountedInv(p: Parser)
    requires Counted(p) && !p.state.ChunkSizeStart?
    ensures Inv(p)
  {
  }

  lemma MarksOfStates(s: State)
    ensures UrlState(s) ==> MarkOf(s) == [UrlData]
    ensures s.ReqHttpStart? || s.ReqLineAlmostDone? || s.ResLineAlmostDone? || s.FieldStart? || s.ResStatusStart? ==>
            MarkOf(s) == []
    ensures s.ResStatus? ==> MarkOf(s) == [StatusData]
  {
  }

  lemma ValueStartStays(p: Parser, ch: Octet)
    ensures !StepValueStart(p, ch).exit
  {
  }

  lemma EndOfHeadersMark(hc: SkipBody, p: Parser, ch: Octet)
    requires p.state.HeadersAlmostDone? && p.errno.OK?
    ensures var e := StepHeadersAlmostDone(hc, p, ch);
            e.p.errno.OK? ==> MarkOf(e.p.state) == [] || MarkOf(e.p.state) == [BodyData]
  {
  }

  /** The states that neither collect a field nor end the headers. */
  predicate Quiet(s: State) {
    StartState(s) || s.StartReq? || s.ReqMethod? || RequestVersionState(s) ||
    (ResponseLineState(s) && !s.ResStatusStart? && !s.ResStatus?) ||
    (ChunkState(s) && !s.ChunkData? && !s.ChunkDataAlmostDone?)
  }

  lemma StepCases(hc: SkipBody, p: Parser, ch: Octet)
    ensures StartState(p.state) ==> Step(hc, p, ch) == StepStart(p, ch)
    ensures p.state.StartReq? ==> Step(hc, p, ch) == StepStartReq(p, ch)
    ensures ResponseLineState(p.state) ==> Step(hc, p, ch) == StepResponseLine(p, ch)
    ensures p.state.ReqMethod? ==> Step(hc, p, ch) == StepMethod(p, ch)
    ensures RequestVersionState(p.state) ==> Step(hc, p, ch) == StepRequestVersion(p, ch)
    ensures ChunkState(p.state) ==> Step(hc, p, ch) == StepChunk(p, ch)
  {
    hide StepResponseLine, StepMethod, StepRequestVersion, StepStart, StepStartReq, StepChunk;
  }

  lemma QuietStep(hc: SkipBody, p: Parser, ch: Octet)
    requires Quiet(p.state)
    ensures var e := Step(hc, p, ch);
            && !e.exit
            && (MarkOf(e.p.state) == [] || MarkOf(e.p.state) == [BodyData])
            && (!StartState(p.state) && !p.state.StartReq? ==> e.events == [])
  {
    StepCases(hc, p, ch);
    hide MarkOf, Step;
    hide StepResponseLine, StepMethod, StepRequestVersion, StepStart, StepStartReq, StepChunk;
    if StartState(p.state) || p.state.StartReq? {
      QuietStart(p, ch);
    } else if p.state.ReqMethod? {
      QuietMethod(p, ch);
    } else if RequestVersionState(p.state) {
      QuietVersion(p, ch);
    } else if ChunkState(p.state) {
      QuietChunk(p, ch);
    } else {
      QuietResponse(p, ch);
    }
  }

  lemma QuietMark(s: State)
    requires Quiet(s)
    ensures MarkOf(s) == []
  {
  }

  predicate QuietEffect(e: Effect) {
    !e.exit && (MarkOf(e.p.state) == [] || MarkOf(e.p.state) == [BodyData])
  }

  lemma QuietStart(p: Parser, ch: Octet)
    requires StartState(p.state) || p.state.StartReq?
    ensures QuietEffect(if p.state.StartReq? then StepStartReq(p, ch) else StepStart(p, ch))
  {
    QuietStartReq(p.(state := StartReq), ch);
    QuietStartReq(p.(flags := NO_FLAGS, contentLength := ULLONG_MAX, kind := Request, state := StartReq), ch);
    hide StepStartReq;
  }

  lemma QuietStartReq(p: Parser, ch: Octet)
    requires p.state.StartReq?
    ensures QuietEffect(StepStartReq(p, ch))
  {
    hide FirstGuess, IsAlpha;
  }

  lemma QuietMethod(p: Parser, ch: Octet)
    requires p.state.ReqMethod?
    ensures QuietEffect(StepMethod(p, ch)) && StepMethod(p, ch).events == []
  {
    hide MethodString, Correct;
  }

  lemma QuietVersion(p: Parser, ch: Octet)
    requires RequestVersionState(p.state)
    ensures QuietEffect(StepRequestVersion(p, ch)) && StepRequestVersion(p, ch).events == []
  {
  }

  lemma QuietChunk(p: Parser, ch: Octet)
    requires ChunkState(p.state) && !p.state.ChunkData? && !p.state.ChunkDataAlmostDone?
    ensures QuietEffect(StepChunk(p, ch)) && StepChunk(p, ch).events == []
  {
  }

  lemma QuietResponse(p: Parser, ch: Octet)
    requires ResponseLineState(p.state) && !p.state.ResStatusStart? && !p.state.ResStatus?
    ensures QuietEffect(StepResponseLine(p, ch)) && StepResponseLine(p, ch).events == []
  {
  }

  /** Only the end of the headers can end a call early. */
  lemma StepExits(hc: SkipBody, p: Parser, ch: Octet)
    ensures Step(hc, p, ch).exit ==>
              p.state.FieldStart? || p.state.HeadersAlmostDone? || p.state.HeadersDone? ||
              p.state.ValueLws? || p.state.ValueDiscardLws?
  {
    hide IsToken, IsUrlChar, IsUserinfoChar, MatchLiteral, MethodString, ParseUrlChar, Correct;
  }

  predicate TextState(s: State) { UrlState(s) || s.ReqSpacesBeforeUrl? || s.ResStatusStart? || s.ResStatus? }

  lemma TextStep(hc: SkipBody, p: Parser, ch: Octet)
    requires TextState(p.state)
    ensures Step(hc, p, ch) ==
            if UrlState(p.state) || p.state.ReqSpacesBeforeUrl? then StepUrl(p, ch) else StepResponseLine(p, ch)
  {
    hide StepUrl, StepResponseLine;
  }

  lemma LwsStep(hc: SkipBody, p: Parser, ch: Octet)
    requires p.state.ValueLws?
    ensures StepHeaderGap(hc, p, ch) ==
            if ch == ' ' || ch == TAB then StepValueStart(p.(state := ValueStart), ch)
            else StepFieldStart(hc, p.(flags := HeaderFlags(p), state := FieldStart), ch)
  {
    hide StepFieldStart, StepValueStart;
  }

  predicate StopsUnmarked(e: Effect) { e.exit ==> MarkOf(e.p.state) == [] }

  lemma EndOfHeadersStop(hc: SkipBody, p: Parser, ch: Octet)
    ensures p.state.HeadersAlmostDone? ==> StopsUnmarked(StepHeadersAlmostDone(hc, p, ch))
    ensures p.state.HeadersDone? ==> StopsUnmarked(StepHeadersDone(p))
  {
  }

  lemma FieldStartStop(hc: SkipBody, p: Parser, ch: Octet)
    requires p.state.FieldStart?
    ensures StopsUnmarked(StepFieldStart(hc, p, ch))
  {
    hide StepHeadersAlmostDone, IsToken;
    EndOfHeadersStop(hc, p.(state := HeadersAlmostDone), ch);
  }

  lemma HeaderGapStop(hc: SkipBody, p: Parser, ch: Octet)
    requires p.state.ValueLws? || p.state.ValueDiscardLws?
    ensures StopsUnmarked(StepHeaderGap(hc, p, ch))
  {
    hide StepFieldStart, StepValueStart;
    FieldStartStop(hc, p.(state := FieldStart), ch);
    FieldStartStop(hc, p.(flags := HeaderFlags(p), state := FieldStart), ch);
    ValueStartStays(p.(state := ValueStart), ch);
  }

  /** A call that ends early ends between messages. */
  lemma StopMark(hc: SkipBody, p: Parser, ch: Octet)
    ensures StopsUnmarked(Turn(hc, p, ch))
  {
    hide StepField, StepValue, StepChunk, StepResponseLine, StepMethod, StepUrl, StepRequestVersion, StepStart,
         StepStartReq;
    hide StepFieldStart, StepHeaderGap, StepHeadersAlmostDone, StepHeadersDone, MarkOf;
    var q := if ParsingHeader(p.state) then p.(nread := p.nread + 1) else p;
    StepExits(hc, q, ch);
    if q.state.FieldStart? { FieldStartStop(hc, q, ch); }
    else if q.state.ValueLws? || q.state.ValueDiscardLws? { HeaderGapStop(hc, q, ch); }
    else { EndOfHeadersStop(hc, q, ch); }
  }

  lemma NewMessageMark(p: Parser)
    ensures MarkOf(NewMessage(p)) == []
  {
  }

  /** OpenByte for several bytes at once. */
  lemma OpenBytes(log: seq<Event>, k: DataKind, data: seq<Octet>, m: nat, p: nat, q: nat)
    requires m <= p < q <= |data|
    ensures Append(WithOpen(log, k, data, m, p), Data(k, data[p..q])) == WithOpen(log, k, data, m, q)
  {
    assert data[m..p] + data[p..q] == data[m..q];
    AppendData(log, k, data[m..p], data[p..q]);
  }

  class HttpParser {
    const onHeadersComplete: SkipBody

    var kind: ParserType
    var flags: Flags
    var state: State
    var headerState: HeaderState
    var index: nat
    var nread: nat
    var contentLength: nat
    var major: nat
    var minor: nat
    var statusCode: nat
    var httpMethod: Method
    var errno: Errno
    var upgrade: bool

    /** The callbacks made, as they were made. */
    var calls: seq<Event>

    /** The locals header_field_mark, header_value_mark, url_mark, body_mark and status_mark of the
        call in progress: the offset where a field began, absent for a null mark. */
    var marks: map<DataKind, nat>

    /** The record as a value. */
    function View(): Parser
      reads this
    {
      Parser(kind, flags, state, headerState, index, nread, contentLength, major, minor, statusCode,
             httpMethod, errno, upgrade)
    }

    ghost predicate Valid()
      reads this
    {
      errno.OK? ==> Inv(View())
    }

    constructor (kind: ParserType, onHeadersComplete: SkipBody)
      ensures Valid() && View() == Init(kind) && calls == [] && this.onHeadersComplete == onHeadersComplete
      ensures this.kind == kind && errno == OK && !upgrade && flags == Flags(false, false, false, false, false, false)
      ensures index == 0 && nread == 0 && contentLength == 0 && major == 0 && minor == 0 && statusCode == 0
      ensures state == if kind == Request then StartReq else if kind == Response then StartRes else StartReqOrRes
    {
      this.onHeadersComplete := onHeadersComplete;
      this.kind, flags := kind, NO_FLAGS;
      state := match kind case Request => StartReq case Response => StartRes case Both => StartReqOrRes;
      headerState, index, nread, contentLength := General, 0, 0, 0;
      major, minor, statusCode, httpMethod, errno, upgrade := 0, 0, 0, DELETE, OK, false;
      calls, marks := [], map[];
    }

    // ---------- the log seen so far ----------

    /** Marks lie at or before offset `p`, and only the field of the current state has one. */
    ghost predicate Marked(data: seq<Octet>, p: nat)
      reads this
    {
      && p <= |data|
      && (forall k :: k in marks ==>
            MarkOf(state) == [k] && (marks[k] < p || (p == 0 && marks[k] == 0 && !k.BodyData?)))
      && (MarkOf(state) != [] && MarkOf(state) != [BodyData] ==> MarkOf(state)[0] in marks)
    }

    /** The callbacks made, and the bytes before `p` that are still to be reported. */
    ghost function Seen(data: seq<Octet>, p: nat): seq<Event>
      requires p <= |data|
      reads this
    {
      var open := MarkOf(state);
      if open != [] && open[0] in marks && marks[open[0]] <= p then
        WithOpen(Log(calls), open[0], data, marks[open[0]], p)
      else Log(calls)
    }

    /** MARK */
    method Mark(k: DataKind, p: nat)
      modifies this`marks
      ensures marks == if k in old(marks) then old(marks) else old(marks)[k := p]
    {
      if k !in marks {
        marks := marks[k := p];
      }
    }

    /** CALLBACK_NOTIFY */
    method Notify(e: Event)
      requires errno.OK?
      modifies this`calls
      ensures calls == old(calls) + [e] && Log(calls) == Append(Log(old(calls)), e)
    {
      assert errno.OK?;
      LogCall(calls, e);
      calls := calls + [e];
    }

    /** CALLBACK_DATA_ with LEN reaching to offset `end` */
    method CallbackData(k: DataKind, data: seq<Octet>, end: nat)
      requires errno.OK? && end <= |data| && (k in marks ==> marks[k] <= end)
      modifies this`calls, this`marks
      ensures marks == old(marks) - {k}
      ensures calls == if k in old(marks) then old(calls) + [Data(k, data[old(marks)[k]..end])] else old(calls)
      ensures k in old(marks) ==> Log(calls) == Append(Log(old(calls)), Data(k, data[old(marks)[k]..end]))
    {
      assert errno.OK?;
      if k in marks {
        LogCall(calls, Data(k, data[marks[k]..end]));
        calls := calls + [Data(k, data[marks[k]..end])];
        marks := marks - {k};
      }
    }

    // ---------- the cases of the switch ----------
    // Each method is a group of cases, for the byte at offset `p`.  On return the record is what the
    // transition says, and so is the log: the callbacks made and the bytes under an open mark.

    /** Callbacks and marks agree with the callbacks `es` of a transition from log `before`. */
    ghost predicate Agrees(data: seq<Octet>, p: nat, before: seq<Event>, es: seq<Event>)
      reads this
    {
      p < |data| &&
      if errno.OK? then Marked(data, p + 1) && Seen(data, p + 1) == AppendAll(before, es)
      else Dropped(data, p, AppendAll(before, es))
    }

    /** After an error, `log` has been reported but for the bytes of one unfinished field. */
    ghost predicate Dropped(data: seq<Octet>, p: nat, log: seq<Event>)
      requires p <= |data|
      reads this
    {
      Log(calls) == log || exists k, m: nat | m <= p :: WithOpen(Log(calls), k, data, m, p) == log
    }

    // The ways a byte can leave the marks and the log.

    /** With no mark set, the log is the callbacks made. */
    lemma Unmarked(data: seq<Octet>, p: nat, before: seq<Event>, es: seq<Event>)
      requires p < |data| && marks == map[]
      requires errno.OK? ==> MarkOf(state) == [] || MarkOf(state) == [BodyData]
      requires Log(calls) == AppendAll(before, es)
      ensures Agrees(data, p, before, es)
    {
      hide Log, AppendAll;
    }

    /** The mark of the field under way. */
    lemma UnderWay(data: seq<Octet>, p: nat, k: DataKind)
      requires Marked(data, p) && MarkOf(state) == [k] && k != BodyData
      ensures k in marks && marks == map[k := marks[k]] && marks[k] <= p
      ensures Seen(data, p) == WithOpen(Log(calls), k, data, marks[k], p)
    {
      hide Log, WithOpen, MarkOf;
    }

    /** No field is under way. */
    lemma NoField(data: seq<Octet>, p: nat)
      requires Marked(data, p) && MarkOf(state) == []
      ensures marks == map[] && Seen(data, p) == Log(calls)
    {
      hide Log, MarkOf;
    }

    /** A field begins with the byte at `p`. */
    lemma FieldBegins(data: seq<Octet>, p: nat, k: DataKind)
      requires p < |data| && marks == map[k := p] && errno.OK? && MarkOf(state) == [k]
      ensures Agrees(data, p, Log(calls), [Data(k, [data[p]])])
    {
      hide Log, Append, MarkOf;
      OpenByte(Log(calls), k, data, p, p);
      AppendOne(Log(calls), Data(k, [data[p]]));
    }

    /** A field goes on with the byte at `p`. */
    lemma FieldGoesOn(data: seq<Octet>, p: nat, k: DataKind)
      requires p < |data| && k in marks && marks == map[k := marks[k]] && marks[k] <= p
      requires errno.OK? && MarkOf(state) == [k]
      ensures Agrees(data, p, WithOpen(Log(calls), k, data, marks[k], p), [Data(k, [data[p]])])
    {
      hide Log, Append, MarkOf;
      OpenByte(Log(calls), k, data, marks[k], p);
      AppendOne(WithOpen(Log(calls), k, data, marks[k], p), Data(k, [data[p]]));
    }

    /** A field that began at `m` has been reported, at the byte after it. */
    lemma FieldEnds(data: seq<Octet>, p: nat, k: DataKind, m: nat, log: seq<Event>)
      requires m <= p < |data| && marks == map[] && errno.OK? && MarkOf(state) == []
      requires Log(calls) == Append(log, Data(k, data[m..p]))
      ensures Agrees(data, p, WithOpen(log, k, data, m, p), [Data(k, [])])
    {
      hide Log, Append, MarkOf;
      OpenByte(log, k, data, m, p);
      AppendOne(WithOpen(log, k, data, m, p), Data(k, []));
    }

    /** An error leaves the field under way unreported. */
    lemma FieldIsCut(data: seq<Octet>, p: nat, k: DataKind, m: nat)
      requires m <= p < |data| && !errno.OK?
      ensures Agrees(data, p, WithOpen(Log(calls), k, data, m, p), [])
    {
      hide Log, Append, MarkOf, WithOpen;
      assert WithOpen(Log(calls), k, data, m, p) == AppendAll(WithOpen(Log(calls), k, data, m, p), []);
    }

    method ResponseLineByte(ch: Octet)
      requires ResponseLineState(state) && !state.ResStatusStart? && !state.ResStatus?
      modifies this`state, this`major, this`minor, this`statusCode, this`errno
      ensures View() == StepResponseLine(old(View()), ch).p
    {
      match state
      case ResH =>
        if ch != 'T' { errno := STRICT; return; }
        state := ResHT;
      case ResHT =>
        if ch != 'T' { errno := STRICT; return; }
        state := ResHTT;
      case ResHTT =>
        if ch != 'P' { errno := STRICT; return; }
        state := ResHTTP;
      case ResHTTP =>
        if ch != '/' { errno := STRICT; return; }
        state := ResFirstMajor;
      case ResFirstMajor =>
        if ch < '0' || ch > '9' { errno := INVALID_VERSION; return; }
        major := Digit(ch);
        state := ResMajor;
      case ResMajor =>
        if ch == '.' { state := ResFirstMinor; return; }
        if !IsNum(ch) { errno := INVALID_VERSION; return; }
        major := major * 10;
        major := major + Digit(ch);
        if major > 999 { errno := INVALID_VERSION; return; }
      case ResFirstMinor =>
        if !IsNum(ch) { errno := INVALID_VERSION; return; }
        minor := Digit(ch);
        state := ResMinor;
      case ResMinor =>
        if ch == ' ' { state := ResFirstStatusCode; return; }
        if !IsNum(ch) { errno := INVALID_VERSION; return; }
        minor := minor * 10;
        minor := minor + Digit(ch);
        if minor > 999 { errno := INVALID_VERSION; return; }
      case ResFirstStatusCode =>
        if !IsNum(ch) {
          if ch == ' ' { return; }
          errno := INVALID_STATUS;
          return;
        }
        statusCode := Digit(ch);
        state := ResStatusCode;
      case ResStatusCode =>
        if !IsNum(ch) {
          if ch == ' ' { state := ResStatusStart; }
          else if ch == CR { state := ResLineAlmostDone; }
          else if ch == LF { state := FieldStart; }
          else { errno := INVALID_STATUS; }
          return;
        }
        statusCode := statusCode * 10;
        statusCode := statusCode + Digit(ch);
        if statusCode > 999 { errno := INVALID_STATUS; return; }
      case ResLineAlmostDone =>
        if ch != LF { errno := STRICT; return; }
        state := FieldStart;
    }

    method StatusTextByte(data: seq<Octet>, p: nat)
      requires Valid() && errno.OK? && Marked(data, p) && p < |data|
      requires state.ResStatusStart? || state.ResStatus?
      modifies this`state, this`index, this`errno, this`calls, this`marks
      ensures View() == StepResponseLine(old(View()), data[p]).p
      ensures Agrees(data, p, old(Seen(data, p)), StepResponseLine(old(View()), data[p]).events)
    {
      hide Inv, Log, Append, Agrees, Marked, Seen, MarkOf;
      var ch := data[p];
      MarksOfStates(state);
      MarksOfStates(ResStatus);
      MarksOfStates(ResLineAlmostDone);
      MarksOfStates(FieldStart);
      if state.ResStatusStart? {
        assert marks == map[] && Seen(data, p) == Log(calls) by { NoField(data, p); }
        if ch == CR || ch == LF {
          state := if ch == CR then ResLineAlmostDone else FieldStart;
          Unmarked(data, p, Log(calls), []);
          return;
        }
        Mark(StatusData, p);
        state := ResStatus;
        index := 0;
        FieldBegins(data, p, StatusData);
      } else {
        UnderWay(data, p, StatusData);
        ghost var m, log := marks[StatusData], Log(calls);
        if ch == CR || ch == LF {
          state := if ch == CR then ResLineAlmostDone else FieldStart;
          CallbackData(StatusData, data, p);
          FieldEnds(data, p, StatusData, m, log);
        } else {
          FieldGoesOn(data, p, StatusData);
        }
      }
    }

    method StartByte(ch: Octet)
      requires errno.OK? && (StartState(state) || state.StartReq?)
      modifies this`state, this`kind, this`flags, this`contentLength, this`httpMethod, this`index, this`errno,
               this`calls
      ensures var e := if old(state).StartReq? then StepStartReq(old(View()), ch) else StepStart(old(View()), ch);
              View() == e.p && Log(calls) == AppendAll(Log(old(calls)), e.events)
    {
      hide Log, Append, NewMessage;
      AppendNone(Log(calls));
      match state
      case Dead =>
        if ch == CR || ch == LF { return; }
        errno := CLOSED_CONNECTION;
      case StartReqOrRes =>
        EitherStartByte(ch);
      case ResOrRespH =>
        if ch == 'T' {
          kind := Response;
          state := ResHT;
        } else {
          if ch != 'E' { errno := INVALID_CONSTANT; return; }
          kind := Request;
          httpMethod := HEAD;
          index := 2;
          state := ReqMethod;
        }
      case StartRes =>
        ResponseStartByte(ch);
      case StartReq => StartRequestByte(ch);
    }

    method EitherStartByte(ch: Octet)
      requires errno.OK? && state.StartReqOrRes?
      modifies this`state, this`kind, this`flags, this`contentLength, this`httpMethod, this`index, this`errno,
               this`calls
      ensures var e := StepStart(old(View()), ch);
              View() == e.p && Log(calls) == AppendAll(Log(old(calls)), e.events)
    {
      hide Log, Append, StepStartReq;
      AppendNone(Log(calls));
      AppendOne(Log(calls), MessageBegin);
      if ch == CR || ch == LF { return; }
      flags := NO_FLAGS;
      contentLength := ULLONG_MAX;
      if ch == 'H' {
        state := ResOrRespH;
        Notify(MessageBegin);
      } else {
        kind := Request;
        state := StartReq;
        StartRequestByte(ch);
      }
    }

    method ResponseStartByte(ch: Octet)
      requires errno.OK? && state.StartRes?
      modifies this`state, this`flags, this`contentLength, this`errno, this`calls
      ensures var e := StepStart(old(View()), ch);
              View() == e.p && Log(calls) == AppendAll(Log(old(calls)), e.events)
    {
      hide Log, Append;
      AppendNone(Log(calls));
      AppendOne(Log(calls), MessageBegin);
      flags := NO_FLAGS;
      contentLength := ULLONG_MAX;
      if ch == 'H' {
        state := ResH;
      } else if ch != CR && ch != LF {
        errno := INVALID_CONSTANT;
        return;
      }
      Notify(MessageBegin);
    }


    method StartRequestByte(ch: Octet)
      requires errno.OK? && state.StartReq?
      modifies this`state, this`flags, this`contentLength, this`httpMethod, this`index, this`errno, this`calls
      ensures View() == StepStartReq(old(View()), ch).p
      ensures Log(calls) == AppendAll(Log(old(calls)), StepStartReq(old(View()), ch).events)
    {
      hide Log, FirstGuess, IsAlpha;
      AppendOne(Log(calls), MessageBegin);
      if ch == CR || ch == LF { return; }
      flags := NO_FLAGS;
      contentLength := ULLONG_MAX;
      if !IsAlpha(ch) { errno := INVALID_METHOD; return; }
      httpMethod := DELETE;
      index := 1;
      var guess := FirstGuess(ch);
      if guess == [] { errno := INVALID_METHOD; return; }
      httpMethod := guess[0];
      state := ReqMethod;
      Notify(MessageBegin);
    }

    method MethodByte(ch: Octet)
      requires state.ReqMethod?
      modifies this`state, this`httpMethod, this`index, this`errno
      ensures View() == StepMethod(old(View()), ch).p
    {
      if ch == '\0' { errno := INVALID_METHOD; return; }
      var matcher := MethodString(httpMethod);
      if ch == ' ' && At(matcher, index) == '\0' {
        state := ReqSpacesBeforeUrl;
      } else if ch == At(matcher, index) {
      } else {
        var m := Correct(httpMethod, index, ch);
        if m == [] { errno := INVALID_METHOD; return; }
        httpMethod := m[0];
      }
      index := index + 1;
    }

    method UrlStartByte(data: seq<Octet>, p: nat)
      requires errno.OK? && Marked(data, p) && p < |data| && state.ReqSpacesBeforeUrl?
      modifies this`state, this`errno, this`marks
      ensures View() == StepUrl(old(View()), data[p]).p
      ensures Agrees(data, p, Log(calls), StepUrl(old(View()), data[p]).events)
    {
      hide Log, Append, ParseUrlChar, Agrees, Marked, Seen;
      var ch := data[p];
      NoField(data, p);
      if ch == ' ' {
        Unmarked(data, p, Log(calls), []);
        return;
      }
      Mark(UrlData, p);
      if httpMethod.CONNECT? {
        state := ReqServerStart;
      }
      NextUrlState(ch);
      if errno.OK? { FieldBegins(data, p, UrlData); } else { FieldIsCut(data, p, UrlData, p); }
    }

    /** The part of an absolute URL where no whitespace is allowed. */
    predicate SchemaState()
      reads this
    {
      state.ReqSchema? || state.ReqSchemaSlash? || state.ReqSchemaSlashSlash? || state.ReqServerStart?
    }

    method UrlSchemaByte(data: seq<Octet>, p: nat)
      requires errno.OK? && Marked(data, p) && p < |data| && SchemaState()
      modifies this`state, this`major, this`minor, this`errno, this`calls, this`marks
      ensures View() == StepUrl(old(View()), data[p]).p
      ensures Agrees(data, p, old(Seen(data, p)), StepUrl(old(View()), data[p]).events)
    {
      hide Log, Append, ParseUrlChar, Agrees, Marked, Seen;
      var ch := data[p];
      UnderWay(data, p, UrlData);
      ghost var m, log := marks[UrlData], Log(calls);
      if ch == ' ' || ch == CR || ch == LF {
        errno := INVALID_URL;
      } else {
        NextUrlState(ch);
      }
      if errno.OK? { FieldGoesOn(data, p, UrlData); } else { FieldIsCut(data, p, UrlData, m); }
    }

    method UrlTextByte(data: seq<Octet>, p: nat)
      requires errno.OK? && Marked(data, p) && p < |data| && UrlState(state) && !SchemaState()
      modifies this`state, this`major, this`minor, this`errno, this`calls, this`marks
      ensures View() == StepUrl(old(View()), data[p]).p
      ensures Agrees(data, p, old(Seen(data, p)), StepUrl(old(View()), data[p]).events)
    {
      hide Log, Append, ParseUrlChar, Agrees, Marked, Seen, MarkOf;
      var ch := data[p];
      MarksOfStates(state);
      MarksOfStates(ReqHttpStart);
      MarksOfStates(ReqLineAlmostDone);
      MarksOfStates(FieldStart);
      UnderWay(data, p, UrlData);
      ghost var m, log := marks[UrlData], Log(calls);
      if ch == ' ' {
        state := ReqHttpStart;
        CallbackData(UrlData, data, p);
        FieldEnds(data, p, UrlData, m, log);
      } else if ch == CR || ch == LF {
        major := 0;
        minor := 9;
        state := if ch == CR then ReqLineAlmostDone else FieldStart;
        CallbackData(UrlData, data, p);
        FieldEnds(data, p, UrlData, m, log);
      } else {
        NextUrlState(ch);
        if errno.OK? { FieldGoesOn(data, p, UrlData); } else { FieldIsCut(data, p, UrlData, m); }
      }
    }

    method NextUrlState(ch: Octet)
      modifies this`state, this`errno
      ensures state == ParseUrlChar(old(state), ch)
      ensures errno == if state.Dead? then INVALID_URL else old(errno)
      ensures state.Dead? || MarkOf(state) == [UrlData]
    {
      state := ParseUrlChar(state, ch);
      if state.Dead? {
        errno := INVALID_URL;
      }
    }

    method RequestVersionByte(ch: Octet)
      requires RequestVersionState(state)
      modifies this`state, this`major, this`minor, this`errno
      ensures View() == StepRequestVersion(old(View()), ch).p
    {
      match state
      case ReqHttpStart =>
        if ch == 'H' { state := ReqHttpH; }
        else if ch != ' ' { errno := INVALID_CONSTANT; return; }
      case ReqHttpH =>
        if ch != 'T' { errno := STRICT; return; }
        state := ReqHttpHT;
      case ReqHttpHT =>
        if ch != 'T' { errno := STRICT; return; }
        state := ReqHttpHTT;
      case ReqHttpHTT =>
        if ch != 'P' { errno := STRICT; return; }
        state := ReqHttpHTTP;
      case ReqHttpHTTP =>
        if ch != '/' { errno := STRICT; return; }
        state := ReqFirstMajor;
      case ReqFirstMajor =>
        if ch < '1' || ch > '9' { errno := INVALID_VERSION; return; }
        major := Digit(ch);
        state := ReqMajor;
      case ReqMajor =>
        if ch == '.' { state := ReqFirstMinor; return; }
        if !IsNum(ch) { errno := INVALID_VERSION; return; }
        major := major * 10;
        major := major + Digit(ch);
        if major > 999 { errno := INVALID_VERSION; return; }
      case ReqFirstMinor =>
        if !IsNum(ch) { errno := INVALID_VERSION; return; }
        minor := Digit(ch);
        state := ReqMinor;
      case ReqMinor =>
        if ch == CR { state := ReqLineAlmostDone; return; }
        if ch == LF { state := FieldStart; return; }
        if !IsNum(ch) { errno := INVALID_VERSION; return; }
        minor := minor * 10;
        minor := minor + Digit(ch);
        if minor > 999 { errno := INVALID_VERSION; return; }
      case ReqLineAlmostDone =>
        if ch != LF { errno := LF_EXPECTED; return; }
        state := FieldStart;
    }

    // ---------- headers ----------

    method FieldStartByte(data: seq<Octet>, p: nat) returns (exit: bool)
      requires errno.OK? && p < |data| && marks == map[] && state.FieldStart?
      modifies this`state, this`index, this`headerState, this`flags, this`upgrade, this`nread, this`errno, this`calls,
               this`marks
      ensures var e := StepFieldStart(onHeadersComplete, old(View()), data[p]);
              View() == e.p && exit == e.exit && Agrees(data, p, Log(old(calls)), e.events)
    {
      hide Log, Append, StepHeadersAlmostDone, IsToken, Agrees;
      var ch := data[p];
      exit := false;
      ghost var before := Log(calls);
      if ch == CR {
        state := HeadersAlmostDone;
        Unmarked(data, p, before, []);
        return;
      }
      if ch == LF {
        state := HeadersAlmostDone;
        EndOfHeadersMark(onHeadersComplete, View(), ch);
        ghost var es := StepHeadersAlmostDone(onHeadersComplete, View(), ch).events;
        exit := HeadersAlmostDoneByte(ch);
        Unmarked(data, p, before, es);
        return;
      }
      if !IsToken(ch) {
        errno := INVALID_HEADER_TOKEN;
        Unmarked(data, p, before, []);
        return;
      }
      Mark(FieldData, p);
      index := 0;
      state := Field;
      match Token(ch) {
        case 'c' => headerState := HC;
        case 'p' => headerState := MatchingProxyConnection;
        case 't' => headerState := MatchingTransferEncoding;
        case 'u' => headerState := MatchingUpgrade;
        case _ => headerState := General;
      }
      FieldBegins(data, p, FieldData);
    }

    /** `parser->index++` and the comparison with a literal that the matching states share. */
    method MatchByte(c: Octet, lit: string, done: HeaderState)
      modifies this`index, this`headerState
      ensures View() == MatchLiteral(old(View()), c, lit, done)
    {
      index := index + 1;
      if index > |lit| || c != At(lit, index) {
        headerState := General;
      } else if index == |lit| - 1 {
        headerState := done;
      }
    }

    /** The switch on header_state inside s_header_field. */
    method FieldSwitch(ch: Octet)
      requires FieldHeaderState(headerState)
      modifies this`index, this`headerState
      ensures View() == if old(headerState).General? then old(View()) else FieldByte(old(View()), ch)
    {
      hide MatchLiteral, Token;
      var c := Token(ch);
      match headerState
      case General =>
      case HC =>
        index := index + 1;
        headerState := if c == 'o' then HCO else General;
      case HCO =>
        index := index + 1;
        headerState := if c == 'n' then HCON else General;
      case HCON =>
        index := index + 1;
        match c {
          case 'n' => headerState := MatchingConnection;
          case 't' => headerState := MatchingContentLength;
          case _ => headerState := General;
        }
      case MatchingConnection => MatchByte(c, CONNECTION, Connection);
      case MatchingProxyConnection => MatchByte(c, PROXY_CONNECTION, Connection);
      case MatchingContentLength => MatchByte(c, CONTENT_LENGTH, ContentLength);
      case MatchingTransferEncoding => MatchByte(c, TRANSFER_ENCODING, TransferEncoding);
      case MatchingUpgrade => MatchByte(c, UPGRADE, Upgrade);
      case Connection | ContentLength | TransferEncoding | Upgrade =>
        if ch != ' ' { headerState := General; }
      case _ => assert false;  // "Unknown header_state"
    }

    method FieldTextByte(data: seq<Octet>, p: nat)
      requires Valid() && errno.OK? && Marked(data, p) && p < |data| && state.Field?
      modifies this`state, this`index, this`headerState, this`errno, this`calls, this`marks
      ensures View() == StepField(old(View()), data[p]).p
      ensures Agrees(data, p, old(Seen(data, p)), StepField(old(View()), data[p]).events)
    {
      hide Log, Append, IsToken, IndexInv, BodyInv, Agrees, Marked, Seen;
      var ch := data[p];
      UnderWay(data, p, FieldData);
      ghost var m, log := marks[FieldData], Log(calls);
      if IsToken(ch) {
        FieldByteKeeps(View(), ch);
        hide FieldByte;
        FieldSwitch(ch);
        FieldGoesOn(data, p, FieldData);
      } else if ch == ':' || ch == CR || ch == LF {
        state := if ch == ':' then ValueDiscardWs else if ch == CR then HeaderAlmostDone else FieldStart;
        CallbackData(FieldData, data, p);
        FieldEnds(data, p, FieldData, m, log);
      } else {
        errno := INVALID_HEADER_TOKEN;
        FieldIsCut(data, p, FieldData, m);
      }
    }

    method ValueStartByte(data: seq<Octet>, p: nat)
      requires errno.OK? && p < |data| && marks == map[]
      modifies this`state, this`index, this`headerState, this`flags, this`contentLength, this`errno, this`marks
      ensures View() == StepValueStart(old(View()), data[p]).p
      ensures Agrees(data, p, Log(old(calls)), StepValueStart(old(View()), data[p]).events)
    {
      hide Log, Append, Lower, Agrees;
      var ch := data[p];
      Mark(ValueData, p);
      ValueStartSwitch(ch);
      if errno.OK? { FieldBegins(data, p, ValueData); } else { FieldIsCut(data, p, ValueData, p); }
    }

    method ValueStartSwitch(ch: Octet)
      modifies this`state, this`index, this`headerState, this`flags, this`contentLength, this`errno
      ensures View() == StepValueStart(old(View()), ch).p
      ensures state.Value?
    {
      hide Lower;
      state := Value;
      index := 0;
      var c := Lower(ch);
      match headerState
      case Upgrade =>
        flags := flags.(upgrade := true);
        headerState := General;
      case TransferEncoding =>
        headerState := if c == 'c' then MatchingChunked else General;
      case ContentLength =>
        if !IsNum(ch) { errno := INVALID_CONTENT_LENGTH; return; }
        contentLength := Digit(ch);
      case Connection =>
        if c == 'k' { headerState := MatchingKeepAlive; }
        else if c == 'c' { headerState := MatchingClose; }
        else { headerState := General; }
      case _ => headerState := General;
    }

    /** The switch on header_state inside s_header_value. */
    method ValueSwitch(ch: Octet)
      requires ValueHeaderState(headerState)
      modifies this`index, this`headerState, this`contentLength, this`errno
      ensures View() == ValueByte(old(View()), ch).p
    {
      hide MatchLiteral, Lower;
      var c := Lower(ch);
      match headerState
      case General =>
      case Connection | TransferEncoding => assert false;  // "Shouldn't get here."
      case ContentLength =>
        if ch == ' ' { return; }
        if !IsNum(ch) { errno := INVALID_CONTENT_LENGTH; return; }
        var t := contentLength;
        t := (t * 10) % (ULLONG_MAX + 1);
        t := (t + Digit(ch)) % (ULLONG_MAX + 1);
        if (ULLONG_MAX - 10) / 10 < contentLength { errno := INVALID_CONTENT_LENGTH; return; }
        contentLength := t;
      case MatchingChunked => MatchByte(c, CHUNKED, Chunked);
      case MatchingKeepAlive => MatchByte(c, KEEP_ALIVE, KeepAlive);
      case MatchingClose => MatchByte(c, CLOSE, Close);
      case Chunked | KeepAlive | Close =>
        if ch != ' ' { headerState := General; }
      case _ => assert false;  // the default case: no other state is ever in force here
    }

    method ValueTextByte(data: seq<Octet>, p: nat)
      requires Valid() && errno.OK? && Marked(data, p) && p < |data| && state.Value?
      modifies this`state, this`index, this`headerState, this`contentLength, this`errno, this`calls, this`marks
      ensures View() == StepValue(old(View()), data[p]).p
      ensures Agrees(data, p, old(Seen(data, p)), StepValue(old(View()), data[p]).events)
    {
      hide Log, Append, IndexInv, BodyInv, Agrees, Marked, Seen;
      var ch := data[p];
      UnderWay(data, p, ValueData);
      ghost var m, log := marks[ValueData], Log(calls);
      if ch == CR || ch == LF {
        state := HeaderAlmostDone;
        CallbackData(ValueData, data, p);
        if ch == LF {
          // the byte is looked at again, and passes the check of s_header_almost_done
          state := ValueLws;
        }
        FieldEnds(data, p, ValueData, m, log);
      } else {
        hide ValueByte;
        ValueByteKeeps(View(), ch);
        ValueSwitch(ch);
        if errno.OK? { FieldGoesOn(data, p, ValueData); } else { FieldIsCut(data, p, ValueData, m); }
      }
    }

    method DiscardByte(data: seq<Octet>, p: nat)
      requires errno.OK? && p < |data| && marks == map[]
      requires HeaderGapState(state) && !state.ValueLws? && !state.ValueDiscardLws?
      modifies this`state, this`index, this`headerState, this`flags, this`contentLength, this`errno, this`marks
      ensures View() == StepHeaderGap(onHeadersComplete, old(View()), data[p]).p
      ensures Agrees(data, p, Log(calls), StepHeaderGap(onHeadersComplete, old(View()), data[p]).events)
    {
      hide Log, Append, StepValueStart, WithOpen;
      match state
      case ValueDiscardWs => DiscardWsByte(data, p);
      case ValueStart => ValueStartByte(data, p);
      case HeaderAlmostDone | ValueDiscardWsAlmostDone => LineFeedByte(data[p]);
    }

    method LineFeedByte(ch: Octet)
      requires errno.OK? && (state.HeaderAlmostDone? || state.ValueDiscardWsAlmostDone?)
      modifies this`state, this`errno
      ensures Effect(View(), [], false) == StepHeaderGap(onHeadersComplete, old(View()), ch)
      ensures !errno.OK? || state.ValueLws? || state.ValueDiscardLws?
    {
      if ch != LF { errno := STRICT; return; }
      state := if state.HeaderAlmostDone? then ValueLws else ValueDiscardLws;
    }

    method DiscardWsByte(data: seq<Octet>, p: nat)
      requires errno.OK? && p < |data| && marks == map[] && state.ValueDiscardWs?
      modifies this`state, this`index, this`headerState, this`flags, this`contentLength, this`errno, this`marks
      ensures View() == StepHeaderGap(onHeadersComplete, old(View()), data[p]).p
      ensures Agrees(data, p, Log(calls), StepHeaderGap(onHeadersComplete, old(View()), data[p]).events)
    {
      hide Log, Append, StepValueStart, WithOpen;
      var ch := data[p];
      if ch == ' ' || ch == TAB { return; }
      if ch == CR { state := ValueDiscardWsAlmostDone; return; }
      if ch == LF { state := ValueDiscardLws; return; }
      ValueStartByte(data, p);
    }

    method ValueLwsByte(data: seq<Octet>, p: nat) returns (exit: bool)
      requires errno.OK? && p < |data| && marks == map[] && state.ValueLws?
      modifies this`state, this`index, this`headerState, this`flags, this`contentLength, this`upgrade, this`nread,
               this`errno, this`calls, this`marks
      ensures var e := StepHeaderGap(onHeadersComplete, old(View()), data[p]);
              View() == e.p && exit == e.exit && Agrees(data, p, Log(old(calls)), e.events)
    {
      hide Log, Append, StepFieldStart, StepValueStart, Agrees;
      var ch := data[p];
      exit := false;
      LwsStep(onHeadersComplete, View(), ch);
      hide StepHeaderGap;
      if ch == ' ' || ch == TAB {
        state := ValueStart;
        ValueStartByte(data, p);
        assert !StepValueStart(old(View()).(state := ValueStart), ch).exit
               by { ValueStartStays(old(View()).(state := ValueStart), ch); }
        return;
      }
      SettleFlags();
      hide HeaderFlags;
      state := FieldStart;
      exit := FieldStartByte(data, p);
    }

    /** The bits that the end of a header sets. */
    method SettleFlags()
      modifies this`flags
      ensures View() == old(View()).(flags := HeaderFlags(old(View())))
    {
      match headerState
      case KeepAlive => flags := flags.(keepAlive := true);
      case Close => flags := flags.(close := true);
      case Chunked => flags := flags.(chunked := true);
      case _ =>
    }

    method DiscardLwsByte(data: seq<Octet>, p: nat) returns (exit: bool)
      requires errno.OK? && p < |data| && marks == map[] && state.ValueDiscardLws?
      modifies this`state, this`index, this`headerState, this`flags, this`upgrade, this`nread, this`errno, this`calls,
               this`marks
      ensures var e := StepHeaderGap(onHeadersComplete, old(View()), data[p]);
              View() == e.p && exit == e.exit && Agrees(data, p, Log(old(calls)), e.events)
    {
      hide Log, Append, StepFieldStart, WithOpen;
      var ch := data[p];
      exit := false;
      if ch == ' ' || ch == TAB {
        state := ValueDiscardWs;
        return;
      }
      // header value was empty
      ghost var log := Log(calls);
      EmptyValue(data, p);
      state := FieldStart;
      AppendCons(log, Data(ValueData, []), StepFieldStart(onHeadersComplete, View(), ch).events);
      exit := FieldStartByte(data, p);
    }

    /** MARK(header_value) and CALLBACK_DATA_NOADVANCE(header_value) at one place: an empty value. */
    method EmptyValue(data: seq<Octet>, p: nat)
      requires errno.OK? && p < |data| && marks == map[]
      modifies this`calls, this`marks
      ensures marks == map[] && Log(calls) == Append(Log(old(calls)), Data(ValueData, []))
    {
      Mark(ValueData, p);
      assert data[p..p] == [];
      CallbackData(ValueData, data, p);
    }

    /** s_headers_almost_done, and s_headers_done on the same byte. */
    method HeadersAlmostDoneByte(ch: Octet) returns (exit: bool)
      requires errno.OK? && state.HeadersAlmostDone?
      modifies this`state, this`flags, this`upgrade, this`nread, this`errno, this`calls
      ensures var e := StepHeadersAlmostDone(onHeadersComplete, old(View()), ch);
              View() == e.p && exit == e.exit && Log(calls) == AppendAll(Log(old(calls)), e.events)
    {
      hide Log, Append, NewMessage, NeedsEof;
      exit := false;
      if ch != LF { errno := STRICT; return; }
      if flags.trailing {
        AppendOne(Log(calls), MessageComplete);
        state := NewMessage(View());
        Notify(MessageComplete);
        return;
      }
      state := HeadersDone;
      upgrade := flags.upgrade || httpMethod.CONNECT?;
      ghost var log := Log(calls);
      Notify(HeadersComplete);
      if onHeadersComplete(View()) {
        flags := flags.(skipBody := true);
      }
      ghost var es := StepHeadersDone(View()).events;
      assert ([HeadersComplete] + es)[0] == HeadersComplete && ([HeadersComplete] + es)[1..] == es;
      exit := HeadersDoneByte();
    }

    method HeadersDoneByte() returns (exit: bool)
      requires errno.OK? && state.HeadersDone?
      modifies this`state, this`nread, this`calls
      ensures var e := StepHeadersDone(old(View()));
              View() == e.p && exit == e.exit && Log(calls) == AppendAll(Log(old(calls)), e.events)
    {
      hide Log, Append, NewMessage, NeedsEof;
      AppendOne(Log(calls), MessageComplete);
      exit := false;
      nread := 0;
      if upgrade {
        state := NewMessage(View());
        Notify(MessageComplete);
        exit := true;
      } else if flags.skipBody {
        state := NewMessage(View());
        Notify(MessageComplete);
      } else if flags.chunked {
        state := ChunkSizeStart;
      } else if contentLength == 0 {
        state := NewMessage(View());
        Notify(MessageComplete);
      } else if contentLength != ULLONG_MAX {
        state := BodyIdentity;
      } else if kind.Request? || !NeedsEof(View()) {
        state := NewMessage(View());
        Notify(MessageComplete);
      } else {
        state := BodyIdentityEof;
      }
    }

    // ---------- chunk framing ----------

    method ChunkLineByte(ch: Octet)
      requires errno.OK? && ChunkState(state) && !state.ChunkData? && !state.ChunkDataAlmostDone?
      requires ParsingHeader(state) ==> Counted(View())
      requires state.ChunkDataDone? ==> Inv(View())
      modifies this`state, this`contentLength, this`nread, this`flags, this`errno
      ensures View() == StepChunk(old(View()), ch).p
    {
      hide HeaderInv, MethodLength;
      match state
      case ChunkSizeStart =>
        assert nread == 1;
        assert flags.chunked;
        var v := Unhex(ch);
        if v == -1 { errno := INVALID_CHUNK_SIZE; return; }
        contentLength := v;
        state := ChunkSize;
      case ChunkSize =>
        assert flags.chunked;
        if ch == CR { state := ChunkSizeAlmostDone; return; }
        var v := Unhex(ch);
        if v == -1 {
          if ch == ';' || ch == ' ' { state := ChunkParameters; return; }
          errno := INVALID_CHUNK_SIZE;
          return;
        }
        var t := contentLength;
        t := (t * 16) % (ULLONG_MAX + 1);
        t := (t + v) % (ULLONG_MAX + 1);
        if (ULLONG_MAX - 16) / 16 < contentLength { errno := INVALID_CONTENT_LENGTH; return; }
        contentLength := t;
      case ChunkParameters =>
        assert flags.chunked;
        if ch == CR { state := ChunkSizeAlmostDone; }
      case ChunkSizeAlmostDone =>
        assert flags.chunked;
        if ch != LF { errno := STRICT; return; }
        nread := 0;
        if contentLength == 0 {
          flags := flags.(trailing := true);
          state := FieldStart;
        } else {
          state := ChunkData;
        }
      case ChunkDataDone =>
        assert flags.chunked;
        if ch != LF { errno := STRICT; return; }
        nread := 0;
        state := ChunkSizeStart;
    }

    // ---------- bodies ----------

    /** s_body_identity and s_chunk_data: `to_read` bytes at once.  Returns the offset of the last. */
    method KnownLengthBody(data: seq<Octet>, p: nat) returns (last: nat)
      requires errno.OK? && Inv(View()) && Marked(data, p) && p < |data|
      requires state.BodyIdentity? || state.ChunkData?
      modifies this`state, this`contentLength, this`calls, this`marks
      ensures p <= last < |data| && errno.OK? && Marked(data, last + 1)
      ensures last + 1 - p <= old(contentLength)
      ensures Bulk(old(View()), old(Seen(data, p)), data[p..last + 1]) ==
              Run(View(), Seen(data, last + 1), last + 1 - p, false)
    {
      hide Log, Append, NewMessage, HeaderInv, MethodLength, Seen, Marked, WithOpen;
      var toRead := if contentLength < |data| - p then contentLength else |data| - p;
      assert contentLength != 0 && contentLength != ULLONG_MAX;
      BodySoFar(data, p);
      ghost var before := Seen(data, p);
      Mark(BodyData, p);
      ghost var m := marks[BodyData];
      contentLength := contentLength - toRead;
      last := p + toRead - 1;
      OpenBytes(Log(calls), BodyData, data, m, p, last + 1);
      if contentLength == 0 {
        if state.BodyIdentity? {
          CompleteBody(data, last);
          Between(data, last + 1);
          return;
        }
        state := ChunkDataAlmostDone;
      }
      BodyGoesOn(data, last + 1, m);
    }

    /** The body bytes before `p` that are not reported yet, if any. */
    lemma BodySoFar(data: seq<Octet>, p: nat)
      requires Marked(data, p) && MarkOf(state) == [BodyData]
      ensures marks == map[] || (BodyData in marks && marks == map[BodyData := marks[BodyData]] && marks[BodyData] < p)
      ensures Seen(data, p) == WithOpen(Log(calls), BodyData, data, if BodyData in marks then marks[BodyData] else p, p)
    {
      hide Log, MarkOf;
      if BodyData !in marks {
        assert marks == map[];
      }
    }

    lemma BodyGoesOn(data: seq<Octet>, p: nat, m: nat)
      requires MarkOf(state) == [BodyData] && marks == map[BodyData := m] && m < p <= |data|
      ensures Marked(data, p) && Seen(data, p) == WithOpen(Log(calls), BodyData, data, m, p)
    {
      hide Log, MarkOf, WithOpen;
    }

    lemma Between(data: seq<Octet>, p: nat)
      requires MarkOf(state) == [] && marks == map[] && p <= |data|
      ensures Marked(data, p) && Seen(data, p) == Log(calls)
    {
      hide Log, MarkOf;
    }

    /** The end of a body of known length: s_message_done, on the last byte. */
    method CompleteBody(data: seq<Octet>, last: nat)
      requires errno.OK? && last < |data| && state.BodyIdentity?
      requires marks.Keys == {BodyData} && marks[BodyData] <= last
      modifies this`state, this`calls, this`marks
      ensures View() == old(View()).(state := NewMessage(old(View()))) && marks == map[]
      ensures MarkOf(state) == []
      ensures Log(calls) ==
              Append(old(WithOpen(Log(calls), BodyData, data, marks[BodyData], last + 1)), MessageComplete)
    {
      hide Log, Append, NewMessage;
      state := MessageDone;
      CallbackData(BodyData, data, last + 1);
      NewMessageState(View(), BodyIdentity);
      NewMessageMark(View());
      state := NewMessage(View());
      Notify(MessageComplete);
    }

    /** s_body_identity_eof: the rest of the buffer. */
    method EofBody(data: seq<Octet>, p: nat)
      requires errno.OK? && Marked(data, p) && p < |data| && state.BodyIdentityEof?
      modifies this`marks
      ensures Marked(data, |data|)
      ensures Seen(data, |data|) == Append(old(Seen(data, p)), Data(BodyData, data[p..]))
    {
      hide Log, Append;
      Mark(BodyData, p);
      OpenBytes(Log(calls), BodyData, data, marks[BodyData], p, |data|);
      assert data[p..|data|] == data[p..];
    }

    method ChunkDataAlmostDoneByte(data: seq<Octet>, p: nat)
      requires errno.OK? && Inv(View()) && Marked(data, p) && p < |data| && state.ChunkDataAlmostDone?
      modifies this`state, this`errno, this`calls, this`marks
      ensures View() == StepChunk(old(View()), data[p]).p
      ensures Agrees(data, p, old(Seen(data, p)), StepChunk(old(View()), data[p]).events)
    {
      hide Log, Append, HeaderInv, MethodLength;
      var ch := data[p];
      assert flags.chunked;
      assert contentLength == 0;
      if ch != CR {
        errno := STRICT;
        if BodyData in marks {
          assert WithOpen(Log(calls), BodyData, data, marks[BodyData], p) == old(Seen(data, p));
        }
        return;
      }
      state := ChunkDataDone;
      CallbackData(BodyData, data, p);
    }

    // ---------- http_parser_execute ----------

    /** The switch, in the states between the start line and the body. */
    method HeaderSwitch(data: seq<Octet>, p: nat) returns (exit: bool)
      requires errno.OK? && Marked(data, p) && p < |data| && Inv(View())
      requires state.Field? || state.Value? || state.FieldStart? || state.HeadersAlmostDone? || HeaderGapState(state)
      modifies this
      ensures var e := Step(onHeadersComplete, old(View()), data[p]);
              View() == e.p && exit == e.exit && Agrees(data, p, old(Seen(data, p)), e.events)
    {
      hide Log, Append, AppendAll, Agrees, IndexInv, MethodLength, BodyInv;
      hide StepField, StepValue, StepFieldStart, StepHeadersAlmostDone, StepHeaderGap, StepChunk;
      hide StepResponseLine, StepMethod, StepUrl, StepRequestVersion, StepStart, StepStartReq;
      StepExits(onHeadersComplete, View(), data[p]);
      exit := false;
      if state.Field? {
        FieldTextByte(data, p);
      } else if state.Value? {
        ValueTextByte(data, p);
      } else if state.FieldStart? {
        exit := FieldStartByte(data, p);
      } else if state.ValueLws? {
        exit := ValueLwsByte(data, p);
      } else if state.ValueDiscardLws? {
        exit := DiscardLwsByte(data, p);
      } else if HeaderGapState(state) {
        DiscardByte(data, p);
      } else {
        EndOfHeadersMark(onHeadersComplete, View(), data[p]);
        ghost var es := StepHeadersAlmostDone(onHeadersComplete, View(), data[p]).events;
        ghost var before := Log(calls);
        exit := HeadersAlmostDoneByte(data[p]);
        Unmarked(data, p, before, es);
      }
    }

    /** The switch, in the states that take one byte at a time. */
    method Switch(data: seq<Octet>, p: nat) returns (exit: bool)
      requires errno.OK? && Marked(data, p) && p < |data|
      requires if ParsingHeader(state) then Counted(View()) else Inv(View())
      requires !state.BodyIdentity? && !state.BodyIdentityEof? && !state.ChunkData?
      modifies this
      ensures var e := Step(onHeadersComplete, old(View()), data[p]);
              View() == e.p && exit == e.exit && Agrees(data, p, old(Seen(data, p)), e.events)
    {
      hide Log, Append, AppendAll, Agrees, IndexInv, MethodLength, BodyInv;
      hide StepField, StepValue, StepFieldStart, StepHeadersAlmostDone, StepHeaderGap, StepChunk;
      hide StepResponseLine, StepMethod, StepUrl, StepRequestVersion, StepStart, StepStartReq;
      StepExits(onHeadersComplete, View(), data[p]);
      exit := false;
      if ParsingHeader(state) && !state.ChunkSizeStart? { CountedInv(View()); }
      hide HeaderInv;
      if Quiet(state) {
        exit := QuietByte(data, p);
      } else if TextState(state) {
        TextSwitch(data, p);
      } else if state.ChunkDataAlmostDone? {
        ChunkDataAlmostDoneByte(data, p);
      } else {
        exit := HeaderSwitch(data, p);
      }
    }

    /** The states of a URL or a reason phrase. */
    method TextSwitch(data: seq<Octet>, p: nat)
      requires Valid() && errno.OK? && Marked(data, p) && p < |data| && TextState(state)
      modifies this`state, this`index, this`major, this`minor, this`errno, this`calls, this`marks
      ensures var e := Step(onHeadersComplete, old(View()), data[p]);
              View() == e.p && Agrees(data, p, old(Seen(data, p)), e.events)
    {
      TextStep(onHeadersComplete, View(), data[p]);
      hide *;
      if UrlState(state) {
        if SchemaState() { UrlSchemaByte(data, p); } else { UrlTextByte(data, p); }
      } else if state.ReqSpacesBeforeUrl? {
        UrlStartByte(data, p);
      } else {
        StatusTextByte(data, p);
      }
    }

    /** The states with no field to collect. */
    method QuietByte(data: seq<Octet>, p: nat) returns (exit: bool)
      requires errno.OK? && Marked(data, p) && p < |data| && Quiet(state)
      requires if ParsingHeader(state) then Counted(View()) else Inv(View())
      modifies this
      ensures var e := Step(onHeadersComplete, old(View()), data[p]);
              View() == e.p && exit == e.exit && Agrees(data, p, old(Seen(data, p)), e.events)
    {
      hide Log, Append, Agrees, IndexInv, MethodLength, HeaderInv, BodyInv, Step, Quiet, Counted;
      var ch := data[p];
      exit := false;
      QuietStep(onHeadersComplete, View(), ch);
      QuietMark(state);
      hide MarkOf;
      ghost var es := Step(onHeadersComplete, View(), ch).events;
      ghost var before := Log(calls);
      assert Seen(data, p) == before && marks == map[];
      QuietSwitch(ch);
      Unmarked(data, p, before, es);
    }

    method QuietSwitch(ch: Octet)
      requires errno.OK? && Quiet(state)
      requires if ParsingHeader(state) then Counted(View()) else Inv(View())
      modifies this`state, this`kind, this`flags, this`contentLength, this`nread, this`major, this`minor,
               this`statusCode, this`httpMethod, this`index, this`errno, this`calls
      ensures var e := Step(onHeadersComplete, old(View()), ch);
              View() == e.p && Log(calls) == AppendAll(Log(old(calls)), e.events)
    {
      hide Log, Append, IndexInv, MethodLength, HeaderInv, BodyInv, MarkOf;
      hide StepChunk, StepResponseLine, StepMethod, StepRequestVersion, StepStart, StepStartReq, Step;
      StepCases(onHeadersComplete, View(), ch);
      QuietStep(onHeadersComplete, View(), ch);
      if StartState(state) || state.StartReq? {
        StartByte(ch);
      } else if ResponseLineState(state) {
        ResponseLineByte(ch);
      } else if state.ReqMethod? {
        MethodByte(ch);
      } else if RequestVersionState(state) {
        RequestVersionByte(ch);
      } else {
        ChunkLineByte(ch);
      }
    }

    /** The log seen at an error, if the error reports nothing more. */
    lemma SeenOrDropped(data: seq<Octet>, p: nat)
      requires Marked(data, p)
      ensures Dropped(data, p, Seen(data, p))
    {
      hide Log, WithOpen;
      var open := MarkOf(state);
      if open != [] && open[0] in marks && marks[open[0]] <= p {
        assert WithOpen(Log(calls), open[0], data, marks[open[0]], p) == Seen(data, p);
      }
    }

    lemma NothingUnderMarks(data: seq<Octet>)
      requires MarkOf(state) != [] && MarkOf(state) != [BodyData] ==> marks == map[MarkOf(state)[0] := 0]
      requires MarkOf(state) == [] || MarkOf(state) == [BodyData] ==> marks == map[]
      ensures Marked(data, 0) && Seen(data, 0) == Log(calls)
    {
      hide Log;
    }

    /** What a turn of the loop at offset `p` leaves, given the run `r` it should amount to. */
    ghost predicate Reached(data: seq<Octet>, p: nat, exit: bool, r: Run)
      requires p < |data|
      reads this
    {
      && View() == r.p && exit == r.stopped
      && r.consumed == (if errno.OK? then p + 1 else p)
      && (if errno.OK? then Inv(View()) && Marked(data, p + 1) && Seen(data, p + 1) == r.log
          else Dropped(data, p, r.log))
    }

    /** One turn of the loop, in the states that take one byte at a time. */
    method OneByte(data: seq<Octet>, p: nat) returns (exit: bool)
      requires Inv(View()) && Marked(data, p) && p < |data|
      requires !state.BodyIdentity? && !state.BodyIdentityEof? && !state.ChunkData?
      modifies this
      ensures Reached(data, p, exit, old(Advance(onHeadersComplete, Run(View(), Seen(data, p), p, false), data[p])))
    {
      hide Log, Append, Step, HeaderInv, BodyInv, Dropped, WithOpen, MarkOf, IndexInv, MethodLength;
      TurnKeeps(onHeadersComplete, View(), data[p]);
      ghost var before := Seen(data, p);
      if ParsingHeader(state) {
        nread := nread + 1;
        assert Seen(data, p) == before && Marked(data, p);
        if nread > MAX_HEADER_SIZE {
          errno := HEADER_OVERFLOW;
          SeenOrDropped(data, p);
          return false;
        }
      }
      exit := Switch(data, p);
    }

    /** The marks at the start of a call: a field under way begins at offset 0. */
    method OpenMarks()
      modifies this`marks
      ensures MarkOf(state) != [] && MarkOf(state) != [BodyData] ==> marks == map[MarkOf(state)[0] := 0]
      ensures MarkOf(state) == [] || MarkOf(state) == [BodyData] ==> marks == map[]
    {
      marks := map[];
      if state.Field? {
        marks := marks[FieldData := 0];
      }
      if state.Value? {
        marks := marks[ValueData := 0];
      }
      if UrlState(state) {
        marks := marks[UrlData := 0];
      } else if state.ResStatus? {
        marks := marks[StatusData := 0];
      }
    }

    /** The callbacks for a field that the end of the buffer cuts. */
    method Flush(data: seq<Octet>)
      requires errno.OK? && Marked(data, |data|) && data != []
      modifies this`calls, this`marks
      ensures Log(calls) == old(Seen(data, |data|))
    {
      hide Log, Append;
      // at most one mark is set
      assert forall k, k' :: k in marks && k' in marks ==> k == k';
      CallbackData(FieldData, data, |data|);
      CallbackData(ValueData, data, |data|);
      CallbackData(UrlData, data, |data|);
      CallbackData(BodyData, data, |data|);
      CallbackData(StatusData, data, |data|);
    }

    /** A call with no bytes: the end of the connection. */
    method ExecuteEof() returns (consumed: nat)
      requires errno.OK?
      modifies this`errno, this`calls
      ensures View() == EofOf(old(View())) && consumed == (if errno.OK? then 0 else 1)
      ensures Log(calls) == if state.BodyIdentityEof? then Append(old(Log(calls)), MessageComplete) else old(Log(calls))
    {
      match state
      case BodyIdentityEof =>
        Notify(MessageComplete);
        return 0;
      case Dead | StartReqOrRes | StartRes | StartReq =>
        return 0;
      case _ =>
        errno := INVALID_EOF_STATE;
        return 1;
    }

    /** One turn of the loop, over the bytes `data[p..next]`. */
    method LoopTurn(data: seq<Octet>, p: nat) returns (next: nat, exit: bool)
      requires Inv(View()) && Marked(data, p) && p < |data|
      modifies this
      ensures p < next <= |data|
      ensures var s := Feed(onHeadersComplete, old(Run(View(), Seen(data, p), p, false)), data[p..next]);
              && Reached(data, next - 1, exit, s)
              && (exit ==> Log(calls) == s.log)
    {
      hide Log, Append, Dropped, HeaderInv, BodyInv, WithOpen, MarkOf, Turn, AppendAll;
      ghost var r := Run(View(), Seen(data, p), p, false);
      exit := false;
      if state.BodyIdentity? || state.ChunkData? {
        var last := KnownLengthBody(data, p);
        BulkIsFeed(onHeadersComplete, r.p, r.log, p, data[p..last + 1]);
        FeedKeeps(onHeadersComplete, r, data[p..last + 1]);
        next := last + 1;
      } else if state.BodyIdentityEof? {
        EofBulkIsFeed(onHeadersComplete, r.p, r.log, p, data[p..]);
        assert data[p..] == data[p..|data|];
        EofBody(data, p);
        next := |data|;
      } else {
        StopMark(onHeadersComplete, r.p, data[p]);
        TurnKeeps(onHeadersComplete, r.p, data[p]);
        exit := OneByte(data, p);
        next := p + 1;
        FeedOne(onHeadersComplete, data, p, r);
      }
    }

    /** http_parser_execute.  The callbacks and the record after the call are those of the run over
        the bytes one at a time; after an error, the bytes of the field under way are not reported. */
    method Execute(data: seq<Octet>) returns (consumed: nat)
      requires Valid()
      modifies this
      ensures Valid()
      ensures data == [] && old(errno).OK? ==>
                var r := Closed(old(Run(View(), Log(calls), 0, false)));
                View() == r.p && Log(calls) == r.log && consumed == (if errno.OK? then 0 else 1)
      ensures data != [] || !old(errno).OK? ==>
                var r := Feed(onHeadersComplete, old(Run(View(), Log(calls), 0, false)), data);
                && View() == r.p && consumed == r.consumed <= |data|
                && (errno.OK? ==> Log(calls) == r.log)
                && (errno.OK? && !old(upgrade) ==> (r.stopped <==> upgrade))
                && (!errno.OK? ==> Dropped(data, consumed, r.log))
    {
      hide Log, Append, HeaderInv, BodyInv, WithOpen, MarkOf, Advance, AppendAll;
      ghost var r0 := Run(View(), Log(calls), 0, false);
      if !errno.OK? {
        return 0;
      }
      if data == [] {
        consumed := ExecuteEof();
        return;
      }
      FeedKeeps(onHeadersComplete, r0, data);
      OpenMarks();
      NothingUnderMarks(data);
      hide Seen, Dropped, Marked;
      assert data[..0] == [];
      var p := 0;
      while p != |data|
        invariant p <= |data| && Inv(View()) && Marked(data, p)
        invariant Feed(onHeadersComplete, r0, data[..p]) == Run(View(), Seen(data, p), p, false)
        decreases |data| - p
      {
        ghost var r := Run(View(), Seen(data, p), p, false);
        var next, exit := LoopTurn(data, p);
        FeedMore(onHeadersComplete, r0, data, p, next);
        FeedRest(onHeadersComplete, r0, data, next);
        if !errno.OK? {
          return next - 1;
        }
        if exit {
          return next;
        }
        p := next;
      }
      assert data[..p] == data;
      Flush(data);
      return |data|;
    }
  }
}
