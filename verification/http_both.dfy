/** A parser that is to find out by itself whether it reads requests or responses. */
module HttpBoth {
  import opened HttpTypes
  import opened HttpStep
  import opened HttpRun
  import opened HttpMessage
  import opened HttpFraming
  import opened HttpStartLine
  import opened HttpRequest
  import opened HttpBody
  import opened HttpRoundTrip

  /** The run of a new parser of a kind that has passed over `n` bytes. */
  function New(kind: ParserType, n: nat): Run { Run(Init(kind).(nread := n), [], n, false) }

  /** Line breaks before the first message change nothing that is reported. */
  lemma {:induction false} BreaksPassed(hc: SkipBody, n: nat, lead: seq<Octet>)
    requires Breaks(lead) && n + |lead| <= MAX_HEADER_SIZE
    ensures Feed(hc, New(Both, n), lead) == New(Both, n + |lead|)
    decreases |lead|
  {
    hide Turn;
    if lead != [] {
      FirstTurn(hc, Init(Both).(nread := n), lead[0]);
      Quietly(hc, New(Both, n), lead[0], Init(Both).(nread := n + 1));
      assert [lead[0]] + lead[1..] == lead;
      FeedSplit(hc, New(Both, n), [lead[0]], lead[1..]);
      BreaksPassed(hc, n + 1, lead[1..]);
    }
  }

  /** After two bytes, if not after the first, the run is that of a parser of the kind that they tell. */
  lemma BothIs(hc: SkipBody, n: nat, s: seq<Octet>)
    requires |s| >= 2 && s[0] != CR && s[0] != LF && n + 2 <= MAX_HEADER_SIZE
    ensures var r := Feed(hc, New(Both, n), s);
            && (s[0] == 'H' && s[1] == 'T' ==> r == Feed(hc, New(Response, n), s))
            && (s[0] != 'H' || s[1] == 'E' ==> r == Feed(hc, New(Request, n), s))
            && (s[0] == 'H' && s[1] != 'T' && s[1] != 'E' ==> r.p.errno == INVALID_CONSTANT)
  {
    hide Feed;
    var one, rest := s[..1], s[1..];
    assert s == [s[0]] + rest && rest == [s[1]] + s[2..];
    FeedSplit(hc, New(Both, n), [s[0]], rest);
    FeedSplit(hc, New(Request, n), [s[0]], rest);
    if s[0] == 'H' {
      AfterH(hc, n);
      FeedSplit(hc, New(Both, n), "H", [s[1]]);
      FeedSplit(hc, New(Response, n), "H", [s[1]]);
      FeedSplit(hc, New(Request, n), "H", [s[1]]);
      FeedSplit(hc, New(Both, n), "H" + [s[1]], s[2..]);
      FeedSplit(hc, New(Response, n), "H" + [s[1]], s[2..]);
      FeedSplit(hc, New(Request, n), "H" + [s[1]], s[2..]);
      assert s == "H" + [s[1]] + s[2..];
      SecondByte(hc, n, s[1]);
      if s[1] != 'T' && s[1] != 'E' {
        HaltedStays(hc, Feed(hc, New(Both, n), "H" + [s[1]]), s[2..]);
      }
    } else {
      FirstByte(hc, n, s[0]);
    }
  }

  /** The step that the switch takes in each of the first states. */
  lemma FirstTurn(hc: SkipBody, p: Parser, c: Octet)
    requires p.nread < MAX_HEADER_SIZE
    ensures StartState(p.state) ==> Turn(hc, p, c) == StepStart(p.(nread := p.nread + 1), c)
    ensures p.state.StartReq? ==> Turn(hc, p, c) == StepStartReq(p.(nread := p.nread + 1), c)
    ensures p.state.ReqMethod? ==> Turn(hc, p, c) == StepMethod(p.(nread := p.nread + 1), c)
    ensures p.state.ResH? ==> Turn(hc, p, c) == Expect(p.(nread := p.nread + 1), c, 'T', ResHT)
  {
    hide StepField, StepValue, StepFieldStart, StepHeadersAlmostDone, StepHeaderGap, StepChunk, BodyByte, StepStart,
         StepMethod, StepUrl, StepRequestVersion, StepStartReq, Expect;
  }

  lemma FirstByte(hc: SkipBody, n: nat, c: Octet)
    requires c != 'H' && c != CR && c != LF && n < MAX_HEADER_SIZE
    ensures Feed(hc, New(Both, n), [c]) == Feed(hc, New(Request, n), [c])
  {
    hide Append, Turn, StepStartReq;
    FeedByte(hc, New(Both, n), c);
    FeedByte(hc, New(Request, n), c);
    FirstTurn(hc, Init(Both).(nread := n), c);
    FirstTurn(hc, Init(Request).(nread := n), c);
    FirstSame(n, c);
  }

  lemma FirstSame(n: nat, c: Octet)
    requires c != 'H' && c != CR && c != LF
    ensures StepStart(Init(Both).(nread := n + 1), c) == StepStartReq(Init(Request).(nread := n + 1), c)
  {
    hide FirstGuess, IsAlpha;
  }

  lemma AfterH(hc: SkipBody, n: nat)
    requires n < MAX_HEADER_SIZE
    ensures Feed(hc, New(Both, n), "H") == Run(Begun'(Both, n).(state := ResOrRespH), [MessageBegin], n + 1, false)
    ensures Feed(hc, New(Response, n), "H") == Run(Begun'(Response, n).(state := ResH), [MessageBegin], n + 1, false)
    ensures Feed(hc, New(Request, n), "H") ==
            Run(Begun'(Request, n).(state := ReqMethod, httpMethod := HEAD, index := 1), [MessageBegin], n + 1, false)
  {
    hide Turn, Feed, StepStart, StepStartReq;
    FirstTurn(hc, Init(Both).(nread := n), 'H');
    FirstTurn(hc, Init(Response).(nread := n), 'H');
    FirstTurn(hc, Init(Request).(nread := n), 'H');
    StepsOfH(n);
    assert Append([], MessageBegin) == [MessageBegin];
    Loudly(hc, New(Both, n), 'H', Begun'(Both, n).(state := ResOrRespH), MessageBegin);
    Loudly(hc, New(Response, n), 'H', Begun'(Response, n).(state := ResH), MessageBegin);
    Loudly(hc, New(Request, n), 'H', Begun'(Request, n).(state := ReqMethod, httpMethod := HEAD, index := 1),
           MessageBegin);
  }

  lemma StepsOfH(n: nat)
    ensures StepStart(Init(Both).(nread := n + 1), 'H') == Call(Begun'(Both, n).(state := ResOrRespH), MessageBegin)
    ensures StepStart(Init(Response).(nread := n + 1), 'H') == Call(Begun'(Response, n).(state := ResH), MessageBegin)
    ensures StepStartReq(Init(Request).(nread := n + 1), 'H') ==
            Call(Begun'(Request, n).(state := ReqMethod, httpMethod := HEAD, index := 1), MessageBegin)
  {
  }

  /** The record once the first byte of a message is read, but for what the byte itself says. */
  function Begun'(kind: ParserType, n: nat): Parser {
    Init(kind).(nread := n + 1, flags := NO_FLAGS, contentLength := ULLONG_MAX)
  }

  lemma SecondByte(hc: SkipBody, n: nat, c: Octet)
    requires n + 2 <= MAX_HEADER_SIZE
    ensures var r := Feed(hc, New(Both, n), "H" + [c]);
            && (c == 'T' ==> r == Feed(hc, New(Response, n), "H" + [c]))
            && (c == 'E' ==> r == Feed(hc, New(Request, n), "H" + [c]))
            && (c != 'T' && c != 'E' ==> r.p.errno == INVALID_CONSTANT)
  {
    hide Feed, Append, Turn, StepStart, StepMethod, Expect;
    AfterH(hc, n);
    var b, p, q := Feed(hc, New(Both, n), "H"), Feed(hc, New(Response, n), "H"), Feed(hc, New(Request, n), "H");
    FeedSplit(hc, New(Both, n), "H", [c]);
    FeedSplit(hc, New(Response, n), "H", [c]);
    FeedSplit(hc, New(Request, n), "H", [c]);
    FeedByte(hc, b, c);
    FeedByte(hc, p, c);
    FeedByte(hc, q, c);
    FirstTurn(hc, b.p, c);
    FirstTurn(hc, p.p, c);
    FirstTurn(hc, q.p, c);
    SecondSame(n, c);
  }

  lemma SecondSame(n: nat, c: Octet)
    ensures var b := StepStart(Begun'(Both, n).(state := ResOrRespH, nread := n + 2), c);
            && (c == 'T' ==> b == Expect(Begun'(Response, n).(state := ResH, nread := n + 2), c, 'T', ResHT))
            && (c == 'E' ==>
                var p := Begun'(Request, n).(state := ReqMethod, httpMethod := HEAD, index := 1, nread := n + 2);
                b == StepMethod(p, c))
            && (c != 'T' && c != 'E' ==> b.p.errno == INVALID_CONSTANT)
  {
    assert At("HEAD", 1) == 'E';
    hide At;
  }

  /** So it takes any message, with or without line breaks before it, for what it is. */
  lemma EitherRoundTrip(hc: SkipBody, lead: seq<Octet>, m: Message, skip: bool)
    requires Breaks(lead) && Valid(m, skip) && Answers(hc, skip) && |lead| + Head(m) <= MAX_HEADER_SIZE
    ensures var s := Over(m.body, Feed(hc, New(Both, 0), lead + Text(m)));
            s.p.errno.OK? && s.log == AppendAll([], Events(m)) && s.consumed == |lead| + |Text(m)|
  {
    hide Feed, AppendAll, Events, Valid, Head, Breaks, Answers, ValidHeaders, Left, Continues, StartText, RestText;
    BreaksPassed(hc, 0, lead);
    FeedSplit(hc, New(Both, 0), lead, Text(m));
    FirstTwo(m, skip);
    BothIs(hc, |lead|, Text(m));
    OneOfSeries(hc, New(KindOf(m.start), |lead|), m, skip);
  }

  /** The first two bytes of a message tell its kind. */
  lemma FirstTwo(m: Message, skip: bool)
    requires Valid(m, skip)
    ensures var t := Text(m);
            && |t| >= 2 && t[0] != CR && t[0] != LF && 2 <= Head(m)
            && (m.start.Answer? ==> t[0] == 'H' && t[1] == 'T')
            && (m.start.Ask? ==> t[0] != 'H' || t[1] == 'E')
  {
    if m.start.Ask? {
      MethodBegins(m.start.line.m);
    }
    hide Announced, ValidHeaders, RestText, ReasonText, Lines, MethodString;
  }

  lemma MethodBegins(m: Method)
    ensures var s := MethodString(m); |s| >= 2 && s[0] != CR && s[0] != LF && (s[0] != 'H' || s[1] == 'E')
  {
  }
}
