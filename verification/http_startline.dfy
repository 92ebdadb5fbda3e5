/** Start lines: status lines, request methods and request lines. */
module HttpStartLine {
  import opened Common
  import opened HttpTypes
  import opened HttpStep
  import opened HttpRun
  import opened HttpMessage

  // ---------- version and status numbers ----------

  predicate Digits(ds: seq<Octet>) { ds != [] && forall i :: 0 <= i < |ds| ==> IsNum(ds[i]) }

  function Number(ds: seq<Octet>): nat
    requires Digits(ds)
  {
    if |ds| == 1 then Digit(ds[0]) else Number(ds[..|ds| - 1]) * 10 + Digit(ds[|ds| - 1])
  }

  predicate SmallNumber(ds: seq<Octet>) { Digits(ds) && Number(ds) <= 999 }

  lemma DigitIsNotMark(ch: Octet)
    requires IsNum(ch)
    ensures ch != '.' && ch != ' ' && ch != CR && ch != LF
  {
  }

  function AfterMajor(s: State): State { if s.ResFirstMajor? then ResMajor else ReqMajor }

  lemma MajorByte(hc: SkipBody, r: Run, ch: Octet)
    requires !Halted(r) && r.p.nread < MAX_HEADER_SIZE && IsNum(ch)
    ensures r.p.state.ResFirstMajor? || (r.p.state.ReqFirstMajor? && ch != '0') ==>
              Feed(hc, r, [ch]) ==
                At'(r, r.p.(major := Digit(ch), state := AfterMajor(r.p.state), nread := r.p.nread + 1), r.log, 1)
    ensures (r.p.state.ResMajor? || r.p.state.ReqMajor?) && r.p.major * 10 + Digit(ch) <= 999 ==>
              Feed(hc, r, [ch]) == At'(r, r.p.(major := r.p.major * 10 + Digit(ch), nread := r.p.nread + 1), r.log, 1)
  {
    DigitIsNotMark(ch);
    if r.p.state.ResFirstMajor? || (r.p.state.ReqFirstMajor? && ch != '0') {
      Quietly(hc, r, ch, r.p.(major := Digit(ch), state := AfterMajor(r.p.state), nread := r.p.nread + 1));
    } else if (r.p.state.ResMajor? || r.p.state.ReqMajor?) && r.p.major * 10 + Digit(ch) <= 999 {
      Quietly(hc, r, ch, r.p.(major := r.p.major * 10 + Digit(ch), nread := r.p.nread + 1));
    }
  }

  lemma {:induction false} MajorRun(hc: SkipBody, r: Run, ds: seq<Octet>)
    requires !Halted(r) && (r.p.state.ResFirstMajor? || r.p.state.ReqFirstMajor?)
    requires SmallNumber(ds) && (r.p.state.ReqFirstMajor? ==> ds[0] != '0') && r.p.nread + |ds| <= MAX_HEADER_SIZE
    ensures Feed(hc, r, ds) ==
            At'(r, r.p.(major := Number(ds), state := AfterMajor(r.p.state), nread := r.p.nread + |ds|), r.log, |ds|)
  {
    hide Advance;
    var ch := ds[|ds| - 1];
    if |ds| == 1 {
      assert ds == [ch];
      MajorByte(hc, r, ch);
    } else {
      var u := ds[..|ds| - 1];
      assert u + [ch] == ds;
      MajorRun(hc, r, u);
      MajorByte(hc, Feed(hc, r, u), ch);
      FeedSplit(hc, r, u, [ch]);
    }
  }

  function AfterMinor(s: State): State { if s.ResFirstMinor? then ResMinor else ReqMinor }

  lemma MinorByte(hc: SkipBody, r: Run, ch: Octet)
    requires !Halted(r) && r.p.nread < MAX_HEADER_SIZE && IsNum(ch)
    ensures r.p.state.ResFirstMinor? || r.p.state.ReqFirstMinor? ==>
              Feed(hc, r, [ch]) ==
                At'(r, r.p.(minor := Digit(ch), state := AfterMinor(r.p.state), nread := r.p.nread + 1), r.log, 1)
    ensures (r.p.state.ResMinor? || r.p.state.ReqMinor?) && r.p.minor * 10 + Digit(ch) <= 999 ==>
              Feed(hc, r, [ch]) == At'(r, r.p.(minor := r.p.minor * 10 + Digit(ch), nread := r.p.nread + 1), r.log, 1)
  {
    DigitIsNotMark(ch);
    if r.p.state.ResFirstMinor? || r.p.state.ReqFirstMinor? {
      Quietly(hc, r, ch, r.p.(minor := Digit(ch), state := AfterMinor(r.p.state), nread := r.p.nread + 1));
    } else if (r.p.state.ResMinor? || r.p.state.ReqMinor?) && r.p.minor * 10 + Digit(ch) <= 999 {
      Quietly(hc, r, ch, r.p.(minor := r.p.minor * 10 + Digit(ch), nread := r.p.nread + 1));
    }
  }

  lemma {:induction false} MinorRun(hc: SkipBody, r: Run, ds: seq<Octet>)
    requires !Halted(r) && (r.p.state.ResFirstMinor? || r.p.state.ReqFirstMinor?)
    requires SmallNumber(ds) && r.p.nread + |ds| <= MAX_HEADER_SIZE
    ensures Feed(hc, r, ds) ==
            At'(r, r.p.(minor := Number(ds), state := AfterMinor(r.p.state), nread := r.p.nread + |ds|), r.log, |ds|)
  {
    hide Advance;
    var ch := ds[|ds| - 1];
    if |ds| == 1 {
      assert ds == [ch];
      MinorByte(hc, r, ch);
    } else {
      var u := ds[..|ds| - 1];
      assert u + [ch] == ds;
      MinorRun(hc, r, u);
      MinorByte(hc, Feed(hc, r, u), ch);
      FeedSplit(hc, r, u, [ch]);
    }
  }

  lemma CodeByte(hc: SkipBody, r: Run, ch: Octet)
    requires !Halted(r) && r.p.nread < MAX_HEADER_SIZE && IsNum(ch)
    ensures r.p.state.ResFirstStatusCode? ==>
              Feed(hc, r, [ch]) ==
                At'(r, r.p.(statusCode := Digit(ch), state := ResStatusCode, nread := r.p.nread + 1), r.log, 1)
    ensures r.p.state.ResStatusCode? && r.p.statusCode * 10 + Digit(ch) <= 999 ==>
              Feed(hc, r, [ch]) ==
                At'(r, r.p.(statusCode := r.p.statusCode * 10 + Digit(ch), nread := r.p.nread + 1), r.log, 1)
  {
    if r.p.state.ResFirstStatusCode? {
      Quietly(hc, r, ch, r.p.(statusCode := Digit(ch), state := ResStatusCode, nread := r.p.nread + 1));
    } else if r.p.state.ResStatusCode? && r.p.statusCode * 10 + Digit(ch) <= 999 {
      Quietly(hc, r, ch, r.p.(statusCode := r.p.statusCode * 10 + Digit(ch), nread := r.p.nread + 1));
    }
  }

  lemma {:induction false} CodeRun(hc: SkipBody, r: Run, ds: seq<Octet>)
    requires !Halted(r) && r.p.state.ResFirstStatusCode? && SmallNumber(ds) && r.p.nread + |ds| <= MAX_HEADER_SIZE
    ensures Feed(hc, r, ds) ==
            At'(r, r.p.(statusCode := Number(ds), state := ResStatusCode, nread := r.p.nread + |ds|), r.log, |ds|)
  {
    hide Advance;
    var ch := ds[|ds| - 1];
    if |ds| == 1 {
      assert ds == [ch];
      CodeByte(hc, r, ch);
    } else {
      var u := ds[..|ds| - 1];
      assert u + [ch] == ds;
      CodeRun(hc, r, u);
      CodeByte(hc, Feed(hc, r, u), ch);
      FeedSplit(hc, r, u, [ch]);
    }
  }

  /** The single bytes that move a start line from one part to the next. */
  function NextPart(s: State, ch: Octet): seq<State> {
    match s
    case ResH => if ch == 'T' then [ResHT] else []
    case ResHT => if ch == 'T' then [ResHTT] else []
    case ResHTT => if ch == 'P' then [ResHTTP] else []
    case ResHTTP => if ch == '/' then [ResFirstMajor] else []
    case ResMajor => if ch == '.' then [ResFirstMinor] else []
    case ResMinor => if ch == ' ' then [ResFirstStatusCode] else []
    case ResStatusCode =>
      if ch == ' ' then [ResStatusStart] else if ch == CR then [ResLineAlmostDone]
      else if ch == LF then [FieldStart] else []
    case ResStatusStart => if ch == CR then [ResLineAlmostDone] else if ch == LF then [FieldStart] else []
    case ResLineAlmostDone => if ch == LF then [FieldStart] else []
    case ReqHttpStart => if ch == 'H' then [ReqHttpH] else []
    case ReqHttpH => if ch == 'T' then [ReqHttpHT] else []
    case ReqHttpHT => if ch == 'T' then [ReqHttpHTT] else []
    case ReqHttpHTT => if ch == 'P' then [ReqHttpHTTP] else []
    case ReqHttpHTTP => if ch == '/' then [ReqFirstMajor] else []
    case ReqMajor => if ch == '.' then [ReqFirstMinor] else []
    case ReqMinor => if ch == CR then [ReqLineAlmostDone] else if ch == LF then [FieldStart] else []
    case ReqLineAlmostDone => if ch == LF then [FieldStart] else []
    case _ => []
  }

  lemma PartByte(hc: SkipBody, r: Run, ch: Octet)
    requires !Halted(r) && r.p.nread < MAX_HEADER_SIZE && NextPart(r.p.state, ch) != []
    ensures Feed(hc, r, [ch]) == At'(r, r.p.(state := NextPart(r.p.state, ch)[0], nread := r.p.nread + 1), r.log, 1)
  {
    var q := r.p.(nread := r.p.nread + 1);
    PartState(r.p.state, ch);
    if ResponseLineState(r.p.state) {
      ResponsePart(q, ch);
    } else {
      RequestPart(q, ch);
    }
    hide NextPart, StepResponseLine, StepRequestVersion;
    Quietly(hc, r, ch, r.p.(state := NextPart(r.p.state, ch)[0], nread := r.p.nread + 1));
  }

  lemma PartState(s: State, ch: Octet)
    requires NextPart(s, ch) != []
    ensures ResponseLineState(s) || RequestVersionState(s)
  {
  }

  lemma ResponsePart(p: Parser, ch: Octet)
    requires ResponseLineState(p.state) && NextPart(p.state, ch) != []
    ensures StepResponseLine(p, ch) == Go(p.(state := NextPart(p.state, ch)[0]))
  {
  }

  lemma RequestPart(p: Parser, ch: Octet)
    requires RequestVersionState(p.state) && NextPart(p.state, ch) != []
    ensures StepRequestVersion(p, ch) == Go(p.(state := NextPart(p.state, ch)[0]))
  {
  }

  lemma TwoParts(hc: SkipBody, r: Run, a: Octet, b: Octet, s: State, t: State)
    requires !Halted(r) && r.p.nread + 2 <= MAX_HEADER_SIZE
    requires NextPart(r.p.state, a) == [s] && NextPart(s, b) == [t]
    ensures Feed(hc, r, [a, b]) == At'(r, r.p.(state := t, nread := r.p.nread + 2), r.log, 2)
  {
    hide Feed, NextPart;
    PartByte(hc, r, a);
    PartByte(hc, Feed(hc, r, [a]), b);
    FeedSplit(hc, r, [a], [b]);
    assert [a] + [b] == [a, b];
  }

  /** The end of a start line. */
  lemma BreakRun(hc: SkipBody, r: Run, e: seq<Octet>)
    requires !Halted(r) && (r.p.state.ResStatusCode? || r.p.state.ResStatusStart? || r.p.state.ReqMinor?) && IsBreak(e)
             && r.p.nread + |e| <= MAX_HEADER_SIZE
    ensures Feed(hc, r, e) == At'(r, r.p.(state := FieldStart, nread := r.p.nread + |e|), r.log, |e|)
  {
    hide Feed;
    if e == [LF] {
      PartByte(hc, r, LF);
    } else {
      TwoParts(hc, r, CR, LF, NextPart(r.p.state, CR)[0], FieldStart);
    }
  }

  predicate Spaces(s: seq<Octet>) { forall i :: 0 <= i < |s| ==> s[i] == ' ' }

  /** More spaces than one between the parts of a start line. */
  lemma {:induction false} SpacesRun(hc: SkipBody, r: Run, s: seq<Octet>)
    requires !Halted(r) && Spaces(s) && r.p.nread + |s| <= MAX_HEADER_SIZE
    requires r.p.state.ResFirstStatusCode? || r.p.state.ReqSpacesBeforeUrl? || r.p.state.ReqHttpStart?
    ensures Feed(hc, r, s) == At'(r, r.p.(nread := r.p.nread + |s|), r.log, |s|)
    decreases |s|
  {
    hide Turn, Feed;
    if s == [] {
      FeedNone(hc, r);
    } else {
      SpaceTurn(hc, r.p);
      Quietly(hc, r, ' ', r.p.(nread := r.p.nread + 1));
      assert [s[0]] + s[1..] == s;
      FeedSplit(hc, r, [s[0]], s[1..]);
      SpacesRun(hc, Feed(hc, r, [s[0]]), s[1..]);
    }
  }

  lemma SpaceTurn(hc: SkipBody, p: Parser)
    requires p.state.ResFirstStatusCode? || p.state.ReqSpacesBeforeUrl? || p.state.ReqHttpStart?
    requires p.nread < MAX_HEADER_SIZE
    ensures Turn(hc, p, ' ') == Go(p.(nread := p.nread + 1))
  {
  }

  /** "TTP/" after the first letter. */
  lemma HttpRest(hc: SkipBody, r: Run)
    requires !Halted(r) && (r.p.state.ResH? || r.p.state.ReqHttpH?) && r.p.nread + 4 <= MAX_HEADER_SIZE
    ensures Feed(hc, r, ['T', 'T', 'P', '/']) ==
            At'(r, r.p.(state := if r.p.state.ResH? then ResFirstMajor else ReqFirstMajor, nread := r.p.nread + 4),
                r.log, 4)
  {
    hide Feed, NextPart;
    var res := r.p.state.ResH?;
    var t := if res then ResHTT else ReqHttpHTT;
    HttpParts(r.p.state);
    TwoParts(hc, r, 'T', 'T', if res then ResHT else ReqHttpHT, t);
    var s := Feed(hc, r, ['T', 'T']);
    TwoParts(hc, s, 'P', '/', if res then ResHTTP else ReqHttpHTTP, if res then ResFirstMajor else ReqFirstMajor);
    FeedSplit(hc, r, ['T', 'T'], ['P', '/']);
    assert ['T', 'T'] + ['P', '/'] == ['T', 'T', 'P', '/'];
  }

  lemma HttpParts(s: State)
    requires s.ResH? || s.ReqHttpH?
    ensures NextPart(s, 'T') == [if s.ResH? then ResHT else ReqHttpHT]
    ensures NextPart(if s.ResH? then ResHT else ReqHttpHT, 'T') == [if s.ResH? then ResHTT else ReqHttpHTT]
    ensures NextPart(if s.ResH? then ResHTT else ReqHttpHTT, 'P') == [if s.ResH? then ResHTTP else ReqHttpHTTP]
    ensures NextPart(if s.ResH? then ResHTTP else ReqHttpHTTP, '/') ==
            [if s.ResH? then ResFirstMajor else ReqFirstMajor]
  {
  }

  // ---------- status line ----------

  /** The numbers of a status line, as written, with the spaces before the code beyond the first, and its
      reason phrase: None if not even a space comes after the code. */
  datatype Status =
    Status(major: seq<Octet>, minor: seq<Octet>, gap: seq<Octet>, code: seq<Octet>, reason: Option<seq<Octet>>,
           end: seq<Octet>)

  predicate ValidStatus(s: Status) {
    && SmallNumber(s.major) && SmallNumber(s.minor) && Spaces(s.gap) && SmallNumber(s.code)
    && (s.reason.Some? ==> NoBreak(s.reason.value)) && IsBreak(s.end)
  }

  function VersionText(major: seq<Octet>, minor: seq<Octet>): seq<Octet> {
    ['T', 'T', 'P', '/'] + major + ['.'] + minor
  }

  function ReasonText(reason: Option<seq<Octet>>, end: seq<Octet>): seq<Octet> {
    match reason
    case None => end
    case Some(t) => [' '] + t + end
  }

  function StatusText(s: Status): seq<Octet> {
    ['H'] + VersionText(s.major, s.minor) + [' '] + s.gap + s.code + ReasonText(s.reason, s.end)
  }

  function ReasonEvents(reason: Option<seq<Octet>>): seq<Event> {
    if reason.None? || reason.value == [] then [] else [Data(StatusData, reason.value)]
  }

  lemma DotParts()
    ensures NextPart(ResMajor, '.') == [ResFirstMinor] && NextPart(ReqMajor, '.') == [ReqFirstMinor]
  {
  }

  lemma VersionRun(hc: SkipBody, r: Run, major: seq<Octet>, minor: seq<Octet>)
    requires !Halted(r) && (r.p.state.ResH? || r.p.state.ReqHttpH?)
    requires SmallNumber(major) && SmallNumber(minor) && (r.p.state.ReqHttpH? ==> major[0] != '0')
    requires r.p.nread + |VersionText(major, minor)| <= MAX_HEADER_SIZE
    ensures Feed(hc, r, VersionText(major, minor)) ==
            At'(r,
                r.p.(major := Number(major), minor := Number(minor),
                     state := if r.p.state.ResH? then ResMinor else ReqMinor,
                        nread := r.p.nread + |VersionText(major, minor)|), r.log, |VersionText(major, minor)|)
  {
    hide Advance, Number, Digits, Feed;
    var a, b := ['T', 'T', 'P', '/'], ['T', 'T', 'P', '/'] + major;
    HttpRest(hc, r);
    DotParts();
    hide NextPart;
    MajorRun(hc, Feed(hc, r, a), major);
    FeedSplit(hc, r, a, major);
    PartByte(hc, Feed(hc, r, b), '.');
    FeedSplit(hc, r, b, ['.']);
    MinorRun(hc, Feed(hc, r, b + ['.']), minor);
    FeedSplit(hc, r, b + ['.'], minor);
  }

  lemma {:induction false} StatusBytes(hc: SkipBody, r: Run, t: seq<Octet>)
    requires !Halted(r) && r.p.state.ResStatus? && NoBreak(t) && r.p.nread + |t| <= MAX_HEADER_SIZE && t != []
    ensures Feed(hc, r, t) == At'(r, r.p.(nread := r.p.nread + |t|), Append(r.log, Data(StatusData, t)), |t|)
    decreases |t|
  {
    hide Append;
    StatusByte(hc, r, t[0]);
    assert [t[0]] + t[1..] == t;
    if |t| > 1 {
      StatusBytes(hc, Feed(hc, r, [t[0]]), t[1..]);
      FeedSplit(hc, r, [t[0]], t[1..]);
      AppendData(r.log, StatusData, [t[0]], t[1..]);
    } else {
      assert t == [t[0]];
    }
  }

  lemma StatusByte(hc: SkipBody, r: Run, ch: Octet)
    requires !Halted(r) && ch != CR && ch != LF && r.p.nread < MAX_HEADER_SIZE
    ensures r.p.state.ResStatus? ==>
              Feed(hc, r, [ch]) == At'(r, r.p.(nread := r.p.nread + 1), Append(r.log, Data(StatusData, [ch])), 1)
    ensures r.p.state.ResStatusStart? ==>
              Feed(hc, r, [ch]) ==
              At'(r, r.p.(state := ResStatus, index := 0, nread := r.p.nread + 1),
                  Append(r.log, Data(StatusData, [ch])), 1)
  {
    hide Append;
    if r.p.state.ResStatus? {
      Loudly(hc, r, ch, r.p.(nread := r.p.nread + 1), Data(StatusData, [ch]));
    } else if r.p.state.ResStatusStart? {
      Loudly(hc, r, ch, r.p.(state := ResStatus, index := 0, nread := r.p.nread + 1), Data(StatusData, [ch]));
    }
  }

  lemma StatusBreak(hc: SkipBody, r: Run, ch: Octet)
    requires !Halted(r) && r.p.state.ResStatus? && r.p.nread < MAX_HEADER_SIZE && (ch == CR || ch == LF)
    ensures Feed(hc, r, [ch]) ==
            At'(r, r.p.(state := if ch == CR then ResLineAlmostDone else FieldStart, nread := r.p.nread + 1),
                Append(r.log, Data(StatusData, [])), 1)
  {
    hide Append;
    Loudly(hc, r, ch, r.p.(state := if ch == CR then ResLineAlmostDone else FieldStart, nread := r.p.nread + 1),
           Data(StatusData, []));
  }

  lemma ReasonBytes(hc: SkipBody, r: Run, t: seq<Octet>)
    requires !Halted(r) && r.p.state.ResStatusStart? && NoBreak(t) && r.p.nread + |t| <= MAX_HEADER_SIZE && t != []
    ensures Feed(hc, r, t) ==
            At'(r, r.p.(state := ResStatus, index := 0, nread := r.p.nread + |t|), Append(r.log, Data(StatusData, t)),
                |t|)
  {
    hide Append, Advance;
    StatusByte(hc, r, t[0]);
    assert [t[0]] + t[1..] == t;
    FeedSplit(hc, r, [t[0]], t[1..]);
    if |t| > 1 {
      StatusBytes(hc, Feed(hc, r, [t[0]]), t[1..]);
      AppendData(r.log, StatusData, [t[0]], t[1..]);
    } else {
      assert t == [t[0]];
    }
  }

  /** The end of a reason phrase. */
  lemma ReasonEnd(hc: SkipBody, r: Run, log: seq<Event>, t: seq<Octet>, e: seq<Octet>)
    requires !Halted(r) && r.p.state.ResStatus? && IsBreak(e) && r.p.nread + |e| <= MAX_HEADER_SIZE
    requires r.log == Append(log, Data(StatusData, t))
    ensures Feed(hc, r, e) == At'(r, r.p.(state := FieldStart, nread := r.p.nread + |e|), r.log, |e|)
  {
    hide Append, Feed;
    AppendData(log, StatusData, t, []);
    assert t + [] == t;
    StatusBreak(hc, r, e[0]);
    if e == [CR, LF] {
      PartByte(hc, Feed(hc, r, [CR]), LF);
      FeedSplit(hc, r, [CR], [LF]);
      assert [CR] + [LF] == [CR, LF];
    }
  }

  /** The reason phrase, or its absence, and the end of the status line. */
  lemma ReasonRun(hc: SkipBody, r: Run, reason: Option<seq<Octet>>, end: seq<Octet>)
    requires !Halted(r) && r.p.state.ResStatusCode? && (reason.Some? ==> NoBreak(reason.value)) && IsBreak(end)
    requires r.p.nread + |ReasonText(reason, end)| <= MAX_HEADER_SIZE
    ensures var s := Feed(hc, r, ReasonText(reason, end));
            s == At'(r, r.p.(state := FieldStart, nread := r.p.nread + |ReasonText(reason, end)|, index := s.p.index),
                     AppendAll(r.log, ReasonEvents(reason)), |ReasonText(reason, end)|)
  {
    hide Append, Feed, NoBreak, AppendAll;
    AppendNone(r.log);
    match reason
    case None => BreakRun(hc, r, end);
    case Some(t) =>
      PartByte(hc, r, ' ');
      var r1 := Feed(hc, r, [' ']);
      hide NextPart;
      FeedSplit(hc, r, [' '], t);
      FeedSplit(hc, r, [' '] + t, end);
      if t == [] {
        FeedNone(hc, r1);
        BreakRun(hc, r1, end);
      } else {
        ReasonBytes(hc, r1, t);
        ReasonEnd(hc, Feed(hc, r1, t), r.log, t, end);
        AppendOne(r.log, Data(StatusData, t));
      }
  }

  lemma FirstH(hc: SkipBody, r: Run)
    requires !Halted(r) && r.p.state.StartRes? && r.p.nread < MAX_HEADER_SIZE
    ensures Feed(hc, r, ['H']) ==
            At'(r, r.p.(flags := NO_FLAGS, contentLength := ULLONG_MAX, state := ResH, nread := r.p.nread + 1),
                Append(r.log, MessageBegin), 1)
  {
    hide Append;
    Loudly(hc, r, 'H', r.p.(flags := NO_FLAGS, contentLength := ULLONG_MAX, state := ResH, nread := r.p.nread + 1),
           MessageBegin);
  }

  /** A status line: its numbers reach the record, its reason the callback. */
  lemma StatusRun(hc: SkipBody, r: Run, s: Status)
    requires !Halted(r) && r.p.state.StartRes? && ValidStatus(s)
    requires r.p.nread + |StatusText(s)| <= MAX_HEADER_SIZE
    ensures var r' := Feed(hc, r, StatusText(s));
            r' == At'(r,
                      r.p.(flags := NO_FLAGS, contentLength := ULLONG_MAX, major := Number(s.major),
                           minor := Number(s.minor),
                              statusCode := Number(s.code), state := FieldStart, nread := r.p.nread + |StatusText(s)|,
                                index := r'.p.index),
                      AppendAll(r.log, [MessageBegin] + ReasonEvents(s.reason)), |StatusText(s)|)
  {
    hide Append, Number, Digits, VersionText, ReasonText, ReasonEvents, Feed, Spaces, NoBreak, IsBreak;
    var v := VersionText(s.major, s.minor);
    var a := ['H'] + v;
    FirstH(hc, r);
    VersionRun(hc, Feed(hc, r, ['H']), s.major, s.minor);
    FeedSplit(hc, r, ['H'], v);
    PartByte(hc, Feed(hc, r, a), ' ');
    FeedSplit(hc, r, a, [' ']);
    SpacesRun(hc, Feed(hc, r, a + [' ']), s.gap);
    FeedSplit(hc, r, a + [' '], s.gap);
    var b := a + [' '] + s.gap;
    CodeRun(hc, Feed(hc, r, b), s.code);
    FeedSplit(hc, r, b, s.code);
    ReasonRun(hc, Feed(hc, r, b + s.code), s.reason, s.end);
    FeedSplit(hc, r, b + s.code, ReasonText(s.reason, s.end));
    AppendCons(r.log, MessageBegin, ReasonEvents(s.reason));
  }
}
