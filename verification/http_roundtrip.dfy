/** The main results on messages: parsing the text of messages reports them, one by one or one after the other,
    in whatever pieces they arrive. */
module HttpRoundTrip {
  import opened Common
  import opened HttpTypes
  import opened HttpStep
  import opened HttpRun
  import opened HttpMessage
  import opened HttpFraming
  import opened HttpStartLine
  import opened HttpRequest
  import opened HttpBody
  import opened HttpSplit

  /** The start line of a response or of a request. */
  datatype Start = Answer(status: Status) | Ask(line: RequestLine)

  /** `end` is the empty line after the headers. */
  datatype Message = Message(start: Start, headers: seq<Header>, end: seq<Octet>, body: Body)

  function KindOf(s: Start): ParserType { if s.Ask? then Request else Response }

  function StartText(s: Start): seq<Octet> { if s.Ask? then RequestLineText(s.line) else StatusText(s.status) }

  function StartEvents(s: Start): seq<Event> {
    [MessageBegin] + if s.Ask? then [Data(UrlData, s.line.url)] else ReasonEvents(s.status.reason)
  }

  predicate ValidStart(s: Start) { if s.Ask? then ValidRequestLine(s.line) else ValidStatus(s.status) }

  function VersionOf(s: Start): (nat, nat)
    requires ValidStart(s)
  {
    if s.Ask? then Numbers(s.line.version) else (Number(s.status.major), Number(s.status.minor))
  }

  /** A record as the start line leaves it, as far as it decides about the body. */
  function Fresh(s: Start): Parser
    requires ValidStart(s)
  {
    match s
    case Ask(l) => Init(Request).(httpMethod := l.m, major := Numbers(l.version).0, minor := Numbers(l.version).1)
    case Answer(st) =>
      Init(Response).(statusCode := Number(st.code), major := Number(st.major), minor := Number(st.minor))
  }

  /** What the start line leaves in the record `p`. */
  predicate Shown(p: Parser, q: Parser, s: Start)
    requires ValidStart(s)
  {
    && q.kind == p.kind && (q.major, q.minor) == VersionOf(s)
    && match s
       case Ask(l) => q.httpMethod == l.m
       case Answer(st) => q.statusCode == Number(st.code) && q.httpMethod == p.httpMethod
  }

  /** The parser waits for a message of its kind; one for responses has no method of its own. */
  predicate Waits(p: Parser, kind: ParserType) {
    && p.errno.OK? && p.kind == kind && p.state == FirstState(kind)
    && (kind.Response? ==> !p.httpMethod.CONNECT?)
  }

  lemma StartRun(hc: SkipBody, r: Run, s: Start)
    requires !Halted(r) && Waits(r.p, KindOf(s)) && ValidStart(s) && r.p.nread + |StartText(s)| <= MAX_HEADER_SIZE
    ensures var r1 := Feed(hc, r, StartText(s));
            && r1 == At'(r, r1.p, AppendAll(r.log, StartEvents(s)), |StartText(s)|) && !Halted(r1)
            && r1.p.state.FieldStart? && r1.p.flags == NO_FLAGS && r1.p.contentLength == ULLONG_MAX
            && r1.p.nread == r.p.nread + |StartText(s)| && Shown(r.p, r1.p, s)
  {
    hide AppendAll, RequestLineText, StatusText, Feed, Number, Numbers, ReasonEvents, ValidUrl, Spaces, IsBreak;
    match s
    case Ask(l) =>
      RequestLineRun(hc, r, l);
      assert [MessageBegin] + [Data(UrlData, l.url)] == [MessageBegin, Data(UrlData, l.url)];
    case Answer(st) => StatusRun(hc, r, st);
  }

  function Text(m: Message): seq<Octet> { StartText(m.start) + RestText(m.headers, m.end, m.body) }

  function Events(m: Message): seq<Event> { StartEvents(m.start) + RestEvents(m.headers, m.body) }

  function Head(m: Message): nat { |StartText(m.start)| + |Lines(m.headers)| + |m.end| }

  /** Valid parts, and a body that start line and headers call for; `skip` says that the callback at the end
      of the headers asks to skip it. */
  predicate Valid(m: Message, skip: bool) {
    && ValidStart(m.start) && ValidHeaders(m.headers) && IsBreak(m.end)
    && Announced(Fresh(m.start), m.headers, m.body, skip) && Head(m) <= MAX_HEADER_SIZE
  }

  /** The answer of the callback at the end of the headers. */
  predicate Skips(hc: SkipBody, r: Run, m: Message)
    requires ValidHeaders(m.headers)
  {
    hc(AtHeadEnd(Feed(hc, r, StartText(m.start)).p, m.headers, m.end))
  }

  predicate Upgrading(m: Message)
    requires ValidStart(m.start) && ValidHeaders(m.headers)
  {
    Upgrades(Fresh(m.start), m.headers)
  }

  /** The state after a message: at the start of the next one if the connection is to stay open. */
  function Next(m: Message, skip: bool): State
    requires ValidStart(m.start) && ValidHeaders(m.headers) && (m.body.InChunks? ==> ValidHeaders(m.body.trailers))
  {
    var f := HeadFraming(m.headers);
    LastState(Fresh(m.start).(flags := f.flags, contentLength := f.contentLength), m.body, skip)
  }

  /** What a message leaves in the record `p`. */
  predicate Leaves(p: Parser, q: Parser, m: Message, skip: bool)
    requires ValidStart(m.start) && ValidHeaders(m.headers) && (m.body.InChunks? ==> ValidHeaders(m.body.trailers))
  {
    && q.errno.OK? && Shown(p, q, m.start) && q.nread == Left(m.body) && q.upgrade == Upgrading(m)
    && q.state == Next(m, skip)
  }

  /** Parsing the text of a message reports it: start line, headers and body as written, each once and in
      order, one beginning and one completion, nothing left over. */
  lemma RoundTrip(hc: SkipBody, r: Run, m: Message)
    requires !Halted(r) && Waits(r.p, KindOf(m.start)) && r.p.nread + Head(m) <= MAX_HEADER_SIZE
    requires ValidHeaders(m.headers) && Valid(m, Skips(hc, r, m))
    ensures m.body.InChunks? ==> ValidHeaders(m.body.trailers)
    ensures var s := Over(m.body, Feed(hc, r, Text(m)));
            && s == Run(s.p, AppendAll(r.log, Events(m)), r.consumed + |Text(m)|, Upgrading(m))
            && Leaves(r.p, s.p, m, Skips(hc, r, m))
  {
    hide AppendAll, StartText, RestText, RestEvents, StartEvents, Feed, Lines, ValidStart, VersionOf, Announced,
         IsBreak, ValidHeaders, Upgrades, Meaning;
    StartRun(hc, r, m.start);
    var r1 := Feed(hc, r, StartText(m.start));
    FreshShows(r.p, r1.p, m);
    RestRun(hc, r1, m.headers, m.end, m.body);
    FeedSplit(hc, r, StartText(m.start), RestText(m.headers, m.end, m.body));
    AppendAllSplit(r.log, StartEvents(m.start), RestEvents(m.headers, m.body));
    var s := Over(m.body, Feed(hc, r, Text(m)));
    DoneLeaves(r.p, r1.p, s.p, m, Skips(hc, r, m));
  }

  lemma FreshShows(p: Parser, q: Parser, m: Message)
    requires ValidStart(m.start) && Shown(p, q, m.start) && Waits(p, KindOf(m.start)) && ValidHeaders(m.headers)
    ensures Upgrades(q, m.headers) == Upgrading(m)
    ensures forall skip :: Announced(Fresh(m.start), m.headers, m.body, skip) ==> Announced(q, m.headers, m.body, skip)
  {
    hide Announced, Meaning, VersionOf, ValidHeaders;
    forall skip | Announced(Fresh(m.start), m.headers, m.body, skip) ensures Announced(q, m.headers, m.body, skip) {
      AnnouncedSame(Fresh(m.start), q, m.headers, m.body, skip);
    }
  }

  lemma DoneLeaves(p: Parser, p1: Parser, q: Parser, m: Message, skip: bool)
    requires ValidStart(m.start) && ValidHeaders(m.headers) && (m.body.InChunks? ==> ValidHeaders(m.body.trailers))
    requires Shown(p, p1, m.start) && Waits(p, KindOf(m.start)) && q.upgrade == Upgrading(m)
    requires var f := HeadFraming(m.headers);
             Done(p1.(flags := f.flags, contentLength := f.contentLength), q, m.body, skip)
    ensures Leaves(p, q, m, skip)
  {
    hide Meaning, ValidHeaders, Upgrades, Left, Numbers, Number, EndFlags;
  }

  // ---------- one message after the other ----------

  /** The callback answers always the same. */
  ghost predicate Answers(hc: SkipBody, skip: bool) { forall p: Parser :: hc(p) == skip }

  /** Another message can follow: the connection stays open, and keeps its protocol. */
  predicate Continues(m: Message, skip: bool)
    requires ValidStart(m.start) && ValidHeaders(m.headers) && (m.body.InChunks? ==> ValidHeaders(m.body.trailers))
  {
    !Upgrading(m) && Next(m, skip) == FirstState(KindOf(m.start))
  }

  /** Messages of one kind on one connection; the header bytes that the parser still counts, the trailing ones
      of the message before, are `n`. */
  predicate ValidSeries(ms: seq<Message>, kind: ParserType, n: nat, skip: bool)
    decreases |ms|
  {
    ms == [] ||
    var m := ms[0];
    && Valid(m, skip) && KindOf(m.start) == kind && n + Head(m) <= MAX_HEADER_SIZE
    && (m.body.InChunks? ==> ValidHeaders(m.body.trailers))
    && (|ms| > 1 ==> Continues(m, skip)) && ValidSeries(ms[1..], kind, Left(m.body), skip)
  }

  function Texts(ms: seq<Message>): seq<Octet> { if ms == [] then [] else Text(ms[0]) + Texts(ms[1..]) }

  function AllEvents(ms: seq<Message>): seq<Event> { if ms == [] then [] else Events(ms[0]) + AllEvents(ms[1..]) }

  /** The last message may still wait for the end of the connection. */
  function AllOver(ms: seq<Message>, r: Run): Run { if ms == [] then r else Over(ms[|ms| - 1].body, r) }

  /** Messages one after the other are reported one after the other. */
  lemma {:induction false} SeriesRoundTrip(hc: SkipBody, r: Run, ms: seq<Message>, kind: ParserType, skip: bool)
    requires !Halted(r) && Waits(r.p, kind) && Answers(hc, skip) && ValidSeries(ms, kind, r.p.nread, skip)
    ensures var s := AllOver(ms, Feed(hc, r, Texts(ms)));
            && s.p.errno.OK? && s.log == AppendAll(r.log, AllEvents(ms)) && s.consumed == r.consumed + |Texts(ms)|
            && s == Closed(Feed(hc, r, Texts(ms)))
    decreases |ms|
  {
    hide AppendAll, Feed, Text, Events, Valid, Head, Left, Continues;
    if ms == [] {
      AppendNone(r.log);
      FeedNone(hc, r);
      WaitsIsClosed(r, kind);
    } else {
      var m, rest := ms[0], ms[1..];
      OneOfSeries(hc, r, m, skip);
      var r1 := Feed(hc, r, Text(m));
      FeedSplit(hc, r, Text(m), Texts(rest));
      if rest == [] {
        FeedNone(hc, r1);
        LastOfSeries(ms);
      } else {
        SeriesRoundTrip(hc, r1, rest, kind, skip);
        AppendAllSplit(r.log, Events(m), AllEvents(rest));
        assert AllOver(ms, Feed(hc, r1, Texts(rest))) == AllOver(rest, Feed(hc, r1, Texts(rest)));
      }
    }
  }

  lemma LastOfSeries(ms: seq<Message>)
    requires |ms| == 1
    ensures Texts(ms) == Text(ms[0]) && AllEvents(ms) == Events(ms[0])
  {
    hide Text, Events;
  }

  lemma OneOfSeries(hc: SkipBody, r: Run, m: Message, skip: bool)
    requires !Halted(r) && Waits(r.p, KindOf(m.start)) && Answers(hc, skip) && Valid(m, skip)
    requires r.p.nread + Head(m) <= MAX_HEADER_SIZE
    ensures m.body.InChunks? ==> ValidHeaders(m.body.trailers)
    ensures var s := Over(m.body, Feed(hc, r, Text(m)));
            && s.p.errno.OK? && s.log == AppendAll(r.log, Events(m)) && s.consumed == r.consumed + |Text(m)|
            && s == Closed(Feed(hc, r, Text(m)))
            && (Continues(m, skip) ==> var r1 := Feed(hc, r, Text(m));
                s == r1 && !Halted(r1) && Waits(r1.p, KindOf(m.start)) && r1.p.nread == Left(m.body))
  {
    hide AppendAll, Feed, Text, Events, Head, Left, ValidHeaders, ValidStart, VersionOf, Upgrades, Announced, IsBreak,
         EndFlags, StartText;
    RoundTrip(hc, r, m);
    OverIsClosed(r.p, Feed(hc, r, Text(m)), m, skip);
    if Continues(m, skip) {
      StillWaits(r.p, Over(m.body, Feed(hc, r, Text(m))).p, m, skip);
    }
  }

  /** The call without bytes does nothing where no body waits for it. */
  lemma OverIsClosed(p: Parser, s: Run, m: Message, skip: bool)
    requires ValidStart(m.start) && ValidHeaders(m.headers) && (m.body.InChunks? ==> ValidHeaders(m.body.trailers))
    requires Leaves(p, Over(m.body, s).p, m, skip)
    ensures Over(m.body, s) == Closed(s)
  {
    hide VersionOf, Upgrades, ValidHeaders, ValidStart, Left, KeepsOpen, EndsWithConnection, Meaning;
  }

  lemma WaitsIsClosed(r: Run, kind: ParserType)
    requires Waits(r.p, kind)
    ensures Closed(r) == r
  {
  }

  lemma StillWaits(p: Parser, q: Parser, m: Message, skip: bool)
    requires ValidStart(m.start) && ValidHeaders(m.headers) && (m.body.InChunks? ==> ValidHeaders(m.body.trailers))
    requires Waits(p, KindOf(m.start)) && Leaves(p, q, m, skip) && Continues(m, skip)
    ensures Waits(q, KindOf(m.start)) && !m.body.ToEof?
  {
    hide VersionOf, Upgrades, ValidHeaders, ValidStart, EndFlags, Left;
  }

  // ---------- no two callbacks of a message run together ----------

  predicate Joins(a: Event, b: Event) { a.Data? && b.Data? && a.kind == b.kind }

  predicate Separate(es: seq<Event>) { forall i :: 0 <= i < |es| - 1 ==> !Joins(es[i], es[i + 1]) }

  lemma {:induction false} SeparateLog(log: seq<Event>, es: seq<Event>)
    requires Separate(log + es)
    ensures AppendAll(log, es) == log + es
    decreases |es|
  {
    if es == [] {
      assert log + es == log;
    } else {
      if log != [] {
        assert (log + es)[|log| - 1] == log[|log| - 1] && (log + es)[|log|] == es[0];
        assert !Joins((log + es)[|log| - 1], (log + es)[|log| - 1 + 1]);
      }
      assert Append(log, es[0]) == log + [es[0]];
      assert log + [es[0]] + es[1..] == log + es;
      SeparateLog(log + [es[0]], es[1..]);
    }
  }

  lemma SeparateConcat(a: seq<Event>, b: seq<Event>)
    requires Separate(a) && Separate(b)
    requires a != [] && b != [] ==> !Joins(a[|a| - 1], b[0])
    ensures Separate(a + b)
  {
    forall i | 0 <= i < |a + b| - 1 ensures !Joins((a + b)[i], (a + b)[i + 1]) {
      if i + 1 < |a| {
        assert !Joins(a[i], a[i + 1]);
      } else if i >= |a| {
        assert !Joins(b[i - |a|], b[i - |a| + 1]);
      }
    }
  }

  /** Every header line brings a value; without one, two names would be reported as one. */
  predicate Valued(hs: seq<Header>) { forall i :: 0 <= i < |hs| ==> hs[i].colon || hs[i].folds != [] }

  predicate AllValued(m: Message) { Valued(m.headers) && (m.body.InChunks? ==> Valued(m.body.trailers)) }

  lemma {:induction false} HeaderEventsSeparate(hs: seq<Header>)
    requires Valued(hs)
    ensures Separate(HeaderEvents(hs))
    ensures hs != [] ==> var es := HeaderEvents(hs);
            es[0] == Data(FieldData, hs[0].name) && es[|es| - 1] == Data(ValueData, Whole(hs[|hs| - 1]))
  {
    if hs != [] {
      var h := [Data(FieldData, hs[0].name), Data(ValueData, Whole(hs[0]))];
      assert LineEvents(hs[0]) == h;
      HeaderEventsSeparate(hs[1..]);
      SeparateConcat(h, HeaderEvents(hs[1..]));
      if |hs| > 1 {
        assert hs[1..][|hs[1..]| - 1] == hs[|hs| - 1];
      }
    }
  }

  lemma RestEventsSeparate(hs: seq<Header>, b: Body)
    requires Valued(hs) && (b.InChunks? ==> Valued(b.trailers))
    ensures Separate(RestEvents(hs, b))
    ensures var es := RestEvents(hs, b);
            && es != [] && (es[0] == HeadersComplete || (es[0].Data? && es[0].kind == FieldData))
            && es[|es| - 1] == MessageComplete
  {
    HeaderEventsSeparate(hs);
    BodyEventsSeparate(b);
    hide Separate, BodyEvents, HeaderEvents;
    SeparateConcat([HeadersComplete], BodyEvents(b));
    SeparateConcat(HeaderEvents(hs), [HeadersComplete] + BodyEvents(b));
  }

  lemma BodyEventsSeparate(b: Body)
    requires b.InChunks? ==> Valued(b.trailers)
    ensures var es := BodyEvents(b);
            && es != [] && Separate(es) && Separate([HeadersComplete]) && es[|es| - 1] == MessageComplete
            && Separate([HeadersComplete] + es)
  {
    hide Payload;
    var d := if Payload(b) == [] then [] else [Data(BodyData, Payload(b))];
    var t := if b.InChunks? then HeaderEvents(b.trailers) else [];
    if b.InChunks? { HeaderEventsSeparate(b.trailers); }
    SeparateConcat(d, t);
    SeparateConcat(d + t, [MessageComplete]);
    SeparateConcat([HeadersComplete], BodyEvents(b));
  }

  lemma EventsSeparate(m: Message)
    requires AllValued(m)
    ensures var es := Events(m); Separate(es) && es[0] == MessageBegin && es[|es| - 1] == MessageComplete
  {
    hide RestEvents, Separate;
    assert Separate(StartEvents(m.start)) by { StartSeparate(m.start); }
    RestEventsSeparate(m.headers, m.body);
    var a, b := StartEvents(m.start), RestEvents(m.headers, m.body);
    SeparateConcat(a, b);
    assert (a + b)[|a + b| - 1] == b[|b| - 1];
  }

  lemma StartSeparate(s: Start)
    ensures Separate(StartEvents(s))
  {
  }

  lemma {:induction false} AllEventsSeparate(ms: seq<Message>)
    requires forall i :: 0 <= i < |ms| ==> AllValued(ms[i])
    ensures Separate(AllEvents(ms)) && (ms != [] ==> AllEvents(ms)[0] == MessageBegin)
  {
    hide Events, Separate, AllValued;
    if ms == [] {
      NothingJoins();
    } else {
      EventsSeparate(ms[0]);
      AllEventsSeparate(ms[1..]);
      SeparateConcat(Events(ms[0]), AllEvents(ms[1..]));
    }
  }

  lemma NothingJoins()
    ensures Separate([])
  {
  }

  /** The main results together: messages that arrive on a connection in any pieces are reported as they were
      written. */
  lemma InPieces(hc: SkipBody, ms: seq<Message>, kind: ParserType, skip: bool, pieces: seq<seq<Octet>>)
    requires !kind.Both? && Answers(hc, skip) && ValidSeries(ms, kind, 0, skip) && Concat(pieces) == Texts(ms)
    ensures var s := AllOver(ms, Calls(hc, Run(Init(kind), [], 0, false), pieces));
            && s.p.errno.OK? && s.log == AppendAll([], AllEvents(ms)) && s.consumed == |Texts(ms)|
            && ((forall i :: 0 <= i < |ms| ==> AllValued(ms[i])) ==> s.log == AllEvents(ms))
            && s == Closed(Calls(hc, Run(Init(kind), [], 0, false), pieces))
  {
    hide AppendAll, Texts, AllEvents, Feed, ValidSeries, Separate, Calls, AllValued, AllOver;
    var r := Run(Init(kind), [], 0, false);
    CallsIsFeed(hc, r, pieces);
    SeriesRoundTrip(hc, r, ms, kind, skip);
    if forall i :: 0 <= i < |ms| ==> AllValued(ms[i]) {
      AllEventsSeparate(ms);
      assert [] + AllEvents(ms) == AllEvents(ms);
      SeparateLog([], AllEvents(ms));
    }
  }

  // ---------- blank lines before a message ----------

  predicate Breaks(s: seq<Octet>) { forall i :: 0 <= i < |s| ==> s[i] == CR || s[i] == LF }

  /** How often a message begins. */
  function Begun(log: seq<Event>): nat {
    if log == [] then 0 else Begun(log[..|log| - 1]) + if log[|log| - 1].MessageBegin? then 1 else 0
  }

  lemma BegunAppend(log: seq<Event>, e: Event)
    ensures Begun(Append(log, e)) == Begun(log) + if e.MessageBegin? then 1 else 0
  {
    var l := Append(log, e);
    if e.Data? && |log| > 0 && log[|log| - 1].Data? && log[|log| - 1].kind == e.kind {
      assert l[..|l| - 1] == log[..|log| - 1];
    } else {
      assert l[..|l| - 1] == log;
    }
  }

  predicate NoBegin(es: seq<Event>) { forall i :: 0 <= i < |es| ==> !es[i].MessageBegin? }

  lemma {:induction false} BegunSame(log: seq<Event>, es: seq<Event>)
    requires NoBegin(es)
    ensures Begun(AppendAll(log, es)) == Begun(log)
    decreases |es|
  {
    hide Append, Begun;
    if es != [] {
      BegunAppend(log, es[0]);
      assert NoBegin(es[1..]) by { assert forall i :: 0 <= i < |es| - 1 ==> es[1..][i] == es[i + 1]; }
      BegunSame(Append(log, es[0]), es[1..]);
    }
  }

  lemma {:induction false} HeadersBeginNothing(hs: seq<Header>)
    ensures NoBegin(HeaderEvents(hs))
  {
    hide Whole;
    if hs != [] {
      HeadersBeginNothing(hs[1..]);
    }
  }

  lemma RestBeginsNothing(hs: seq<Header>, b: Body)
    ensures NoBegin(RestEvents(hs, b))
  {
    hide Payload;
    HeadersBeginNothing(hs);
    if b.InChunks? {
      HeadersBeginNothing(b.trailers);
    }
  }

  /** The events of a message hold one beginning. */
  lemma EventsBegin(log: seq<Event>, m: Message)
    ensures Begun(AppendAll(log, Events(m))) == Begun(log) + 1
  {
    hide Append, AppendAll, RestEvents, NoBegin, Begun, ReasonEvents;
    var first := if m.start.Ask? then [Data(UrlData, m.start.line.url)] else ReasonEvents(m.start.status.reason);
    var tail := first + RestEvents(m.headers, m.body);
    assert Events(m) == [MessageBegin] + tail;
    AppendCons(log, MessageBegin, tail);
    BegunAppend(log, MessageBegin);
    RestBeginsNothing(m.headers, m.body);
    AppendAllSplit(Append(log, MessageBegin), first, RestEvents(m.headers, m.body));
    assert NoBegin(first) by { FirstBeginsNothing(m.start); }
    BegunSame(Append(log, MessageBegin), first);
    BegunSame(AppendAll(Append(log, MessageBegin), first), RestEvents(m.headers, m.body));
  }

  lemma FirstBeginsNothing(s: Start)
    ensures NoBegin(if s.Ask? then [Data(UrlData, s.line.url)] else ReasonEvents(s.status.reason))
  {
  }

  /** A parser for responses takes each carriage return and line feed between messages for a beginning. */
  lemma {:induction false} BreaksRun(hc: SkipBody, r: Run, lead: seq<Octet>)
    requires !Halted(r) && r.p.state.StartRes? && Breaks(lead) && r.p.nread + |lead| <= MAX_HEADER_SIZE
    ensures var s := Feed(hc, r, lead);
            && s ==
                 At'(r, r.p.(nread := r.p.nread + |lead|, flags := s.p.flags, contentLength := s.p.contentLength),
                     s.log, |lead|)
            && Begun(s.log) == Begun(r.log) + |lead|
    decreases |lead|
  {
    hide Append, Begun;
    if lead != [] {
      var q := r.p.(nread := r.p.nread + 1, flags := NO_FLAGS, contentLength := ULLONG_MAX);
      Loudly(hc, r, lead[0], q, MessageBegin);
      BegunAppend(r.log, MessageBegin);
      assert [lead[0]] + lead[1..] == lead;
      FeedSplit(hc, r, [lead[0]], lead[1..]);
      BreaksRun(hc, Feed(hc, r, [lead[0]]), lead[1..]);
    }
  }

  /** A response after line breaks: one beginning more than there are bytes before it. */
  lemma BeginningsBefore(hc: SkipBody, r: Run, lead: seq<Octet>, m: Message, skip: bool)
    requires !Halted(r) && Waits(r.p, Response) && m.start.Answer? && Answers(hc, skip)
    requires Breaks(lead) && Valid(m, skip) && r.p.nread + |lead| + Head(m) <= MAX_HEADER_SIZE
    ensures var s := Over(m.body, Feed(hc, r, lead + Text(m)));
            s.p.errno.OK? && Begun(s.log) == Begun(r.log) + |lead| + 1
  {
    hide Append, AppendAll, Begun, Feed, Text, Events, Valid, Answers, Breaks, Continues, Left, ValidHeaders;
    BreaksRun(hc, r, lead);
    FeedSplit(hc, r, lead, Text(m));
    var s := Feed(hc, r, lead);
    OneOfSeries(hc, s, m, skip);
    EventsBegin(s.log, m);
  }

  /** So a response, with or without line breaks before it, is reported to begin once if and only if the
      first byte is none of theirs. */
  lemma BeginsOnceIff(hc: SkipBody, lead: seq<Octet>, m: Message, skip: bool)
    requires m.start.Answer? && Breaks(lead) && Valid(m, skip) && Answers(hc, skip)
    requires |lead| + Head(m) <= MAX_HEADER_SIZE
    ensures var text := lead + Text(m);
            var s := Over(m.body, Feed(hc, Run(Init(Response), [], 0, false), text));
            s.p.errno.OK? && (Begun(s.log) == 1 <==> text[0] != CR && text[0] != LF)
  {
    hide Feed, Valid, Answers, RestText, VersionText, ReasonText;
    BeginningsBefore(hc, Run(Init(Response), [], 0, false), lead, m, skip);
    assert Text(m)[0] == 'H';
    assert (lead + Text(m))[0] == if lead == [] then 'H' else lead[0];
  }

  const NO_CONTENT: Message :=
    Message(Answer(Status("1", "1", [], "204", None, [CR, LF])), [], [CR, LF], NoBody)

  lemma NoContentText()
    ensures Text(NO_CONTENT) == "HTTP/1.1 204\r\n\r\n"
  {
  }

  lemma NoContentCode()
    ensures Digits("204") && Number("204") == 204
  {
    assert "204"[..2] == "20" && "20"[..1] == "2";
    assert Number("2") == 2 && Number("20") == 20;
  }

  lemma NoContentIsValid()
    ensures Valid(NO_CONTENT, false)
  {
    NoContentText();
    NoContentCode();
    HeadIsShort(NO_CONTENT);
    hide Text, Head;
  }

  lemma EmptyLineText()
    ensures [CR, LF] + "HTTP/1.1 204\r\n\r\n" == "\r\nHTTP/1.1 204\r\n\r\n"
  {
  }

  /** The input that shows it: an empty line before "HTTP/1.1 204" makes three beginnings. */
  lemma EmptyLineBegins(hc: SkipBody)
    requires Answers(hc, false)
    ensures Begun(Feed(hc, Run(Init(Response), [], 0, false), "\r\nHTTP/1.1 204\r\n\r\n").log) == 3
  {
    NoContentText();
    NoContentIsValid();
    EmptyLineText();
    HeadIsShort(NO_CONTENT);
    TwoBreaks();
    NothingBegun();
    hide Feed, Answers, Text, Valid, Begun, Head, Breaks;
    BeginningsBefore(hc, Run(Init(Response), [], 0, false), [CR, LF], NO_CONTENT, false);
  }

  lemma TwoBreaks()
    ensures Breaks([CR, LF])
  {
  }

  lemma NothingBegun()
    ensures Begun([]) == 0
  {
  }

  lemma HeadIsShort(m: Message)
    ensures Head(m) <= |Text(m)|
  {
  }

  /** A parser for requests passes over line breaks. */
  lemma {:induction false} BreaksBeforeRequest(hc: SkipBody, r: Run, lead: seq<Octet>)
    requires !Halted(r) && r.p.state.StartReq? && Breaks(lead) && r.p.nread + |lead| <= MAX_HEADER_SIZE
    ensures Feed(hc, r, lead) == At'(r, r.p.(nread := r.p.nread + |lead|), r.log, |lead|)
    decreases |lead|
  {
    if lead != [] {
      Quietly(hc, r, lead[0], r.p.(nread := r.p.nread + 1));
      assert [lead[0]] + lead[1..] == lead;
      FeedSplit(hc, r, [lead[0]], lead[1..]);
      BreaksBeforeRequest(hc, Feed(hc, r, [lead[0]]), lead[1..]);
    }
  }

  /** So line breaks before a request change nothing that is reported. */
  lemma RequestAfterBreaks(hc: SkipBody, r: Run, lead: seq<Octet>, m: Message, skip: bool)
    requires !Halted(r) && Waits(r.p, Request) && m.start.Ask? && Breaks(lead) && Valid(m, skip) && Answers(hc, skip)
    requires r.p.nread + |lead| + Head(m) <= MAX_HEADER_SIZE
    ensures var s := Over(m.body, Feed(hc, r, lead + Text(m)));
            s.p.errno.OK? && s.log == AppendAll(r.log, Events(m)) && s.consumed == r.consumed + |lead| + |Text(m)|
  {
    hide AppendAll, Feed, Text, Events, Valid, Answers, Breaks, Continues, Left, ValidHeaders;
    BreaksBeforeRequest(hc, r, lead);
    FeedSplit(hc, r, lead, Text(m));
    OneOfSeries(hc, Feed(hc, r, lead), m, skip);
  }

  // ---------- a page whose length is not announced ----------

  const PAGE: Message :=
    Message(Answer(Status("1", "1", [], "200", Some("OK"), [CR, LF])), [], [CR, LF], ToEof("<html>"))

  lemma PageText()
    ensures Text(PAGE) == "HTTP/1.1 200 OK\r\n\r\n<html>"
  {
    PageStart();
    assert RestText([], [CR, LF], ToEof("<html>")) == "\r\n<html>";
    hide StartText, RestText;
  }

  lemma PageStart()
    ensures StartText(PAGE.start) == "HTTP/1.1 200 OK\r\n"
  {
    assert ReasonText(Some("OK"), [CR, LF]) == " OK\r\n";
    hide ReasonText;
    assert VersionText("1", "1") == "TTP/1.1";
    hide VersionText;
  }

  lemma PageCode()
    ensures Digits("200") && Number("200") == 200
  {
    assert "200"[..2] == "20" && "20"[..1] == "2";
    assert Number("2") == 2 && Number("20") == 20;
  }

  lemma PageIsValid()
    ensures Valid(PAGE, false) && Next(PAGE, false) == BodyIdentityEof && !Upgrading(PAGE)
  {
    PageText();
    PageCode();
    HeadIsShort(PAGE);
    hide Text, Head;
  }

  lemma PageEvents()
    ensures Events(PAGE) ==
            [MessageBegin, Data(StatusData, "OK"), HeadersComplete, Data(BodyData, "<html>"), MessageComplete]
    ensures AllValued(PAGE)
  {
  }

  /** The ordinary page: after the headers comes the body, and the end of the connection ends it. */
  lemma PageIsReported(hc: SkipBody)
    requires Answers(hc, false)
    ensures var s := Closed(Feed(hc, Run(Init(Response), [], 0, false), "HTTP/1.1 200 OK\r\n\r\n<html>"));
            && s.p.errno.OK? && s.p.state.BodyIdentityEof? && s.p.statusCode == 200
            && s.log ==
                 [MessageBegin, Data(StatusData, "OK"), HeadersComplete, Data(BodyData, "<html>"), MessageComplete]
  {
    PageText();
    PageCode();
    PageIsValid();
    HeadIsShort(PAGE);
    PageEvents();
    EventsSeparate(PAGE);
    hide Feed, Text, Valid, Head, Events, Separate, AppendAll, Next, Upgrading, AllValued, ValidHeaders, ValidStart,
         Number, AtHeadEnd;
    RoundTrip(hc, Run(Init(Response), [], 0, false), PAGE);
    SeparateLog([], Events(PAGE));
    assert [] + Events(PAGE) == Events(PAGE);
  }
}
