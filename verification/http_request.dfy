/** Request lines: the method guess and its corrections, and URLs. */
module HttpRequest {
  import opened Common
  import opened HttpTypes
  import opened HttpStep
  import opened HttpRun
  import opened HttpMessage
  import opened HttpStartLine

  // ---------- methods ----------

  /** The record after the bytes of a method: s_start_req, then s_req_method. */
  function MethodState(p: Parser, w: seq<Octet>): Parser
    requires w != [] && p.state.StartReq?
  {
    if |w| == 1 then StepStartReq(p, w[0]).p
    else
      var q := MethodState(p, w[..|w| - 1]);
      if q.errno.OK? && q.state.ReqMethod? then StepMethod(q, w[|w| - 1]).p else q
  }

  predicate InMethod(q: Parser) { q.errno.OK? && q.state.ReqMethod? }

  /** The guess that a method corrects, the place where it does, and the letter there. */
  function Corrected(m: Method): Option<(Method, nat, Octet)> {
    match m
    case CHECKOUT => Some((CONNECT, 1, 'H'))
    case COPY => Some((CONNECT, 2, 'P'))
    case MOVE => Some((MKCOL, 1, 'O'))
    case MERGE => Some((MKCOL, 1, 'E'))
    case MSEARCH => Some((MKCOL, 1, '-'))
    case MKACTIVITY => Some((MKCOL, 2, 'A'))
    case SEARCH => Some((SUBSCRIBE, 1, 'E'))
    case PROPFIND => Some((POST, 1, 'R'))
    case PUT => Some((POST, 1, 'U'))
    case PATCH => Some((POST, 1, 'A'))
    case PURGE => Some((PUT, 2, 'R'))
    case UNSUBSCRIBE => Some((UNLOCK, 2, 'S'))
    case PROPPATCH => Some((PROPFIND, 4, 'P'))
    case _ => None
  }

  lemma CorrectionIs(m: Method, i: nat, ch: Octet)
    ensures Correct(m, i, ch) != [] ==> Corrected(Correct(m, i, ch)[0]) == Some((m, i, ch))
  {
  }

  /** A correction keeps the letters read so far. */
  lemma CorrectionShares(m: Method, i: nat, ch: Octet)
    requires Correct(m, i, ch) != []
    ensures var m' := Correct(m, i, ch)[0];
            i < |MethodString(m)| && i < |MethodString(m')|
            && MethodString(m')[..i] == MethodString(m)[..i] && MethodString(m')[i] == ch
  {
    hide Correct, MethodString;
    CorrectionIs(m, i, ch);
    CorrectedShares(Correct(m, i, ch)[0]);
  }

  lemma CorrectedShares(m: Method)
    requires Corrected(m).Some?
    ensures var (g, i, ch) := Corrected(m).value;
            i < |MethodString(g)| && i < |MethodString(m)|
            && MethodString(m)[..i] == MethodString(g)[..i] && MethodString(m)[i] == ch
  {
    var (g, i, ch) := Corrected(m).value;
    var a, b := MethodString(m), MethodString(g);
    assert a[0] == b[0] && (i > 1 ==> a[1] == b[1]) && (i > 2 ==> a[2] == b[2] && a[3] == b[3]);
    assert |a| > i && |b| > i && a[i] == ch && (i == 1 || i == 2 || i == 4);
    hide MethodString, Corrected;
    assert forall k :: 0 <= k < i ==> a[k] == b[k];
  }

  lemma FirstLetter(ch: Octet)
    ensures FirstGuess(ch) != [] ==> |MethodString(FirstGuess(ch)[0])| > 0 && MethodString(FirstGuess(ch)[0])[0] == ch
  {
  }

  /** The guess always agrees with the letters read. */
  lemma {:induction false} GuessAgrees(p: Parser, w: seq<Octet>)
    requires w != [] && p.state.StartReq? && p.errno.OK?
    ensures var q := MethodState(p, w);
            InMethod(q) ==> q.index == |w| <= |MethodString(q.httpMethod)| && w == MethodString(q.httpMethod)[..|w|]
  {
    hide MethodString, Correct, FirstGuess, IsAlpha, StepMethod;
    if |w| == 1 {
      FirstLetter(w[0]);
    } else {
      var u, ch := w[..|w| - 1], w[|w| - 1];
      GuessAgrees(p, u);
      assert u + [ch] == w;
      if InMethod(MethodState(p, u)) {
        GuessByte(MethodState(p, u), u, ch);
      }
    }
  }

  lemma GuessByte(q: Parser, u: seq<Octet>, ch: Octet)
    requires InMethod(q) && q.index == |u| <= |MethodString(q.httpMethod)| && u == MethodString(q.httpMethod)[..|u|]
    ensures var e := StepMethod(q, ch).p;
            InMethod(e) ==>
              e.index == |u| + 1 <= |MethodString(e.httpMethod)| && u + [ch] == MethodString(e.httpMethod)[..|u| + 1]
  {
    hide MethodString, Correct;
    if Correct(q.httpMethod, q.index, ch) != [] {
      CorrectionShares(q.httpMethod, q.index, ch);
    }
  }

  /** The guess after the first `k` letters of a method. */
  function Guess(m: Method, k: nat): Method {
    match m
    case CHECKOUT => if k < 2 then CONNECT else m
    case COPY => if k < 3 then CONNECT else m
    case MOVE | MERGE | MSEARCH => if k < 2 then MKCOL else m
    case MKACTIVITY => if k < 3 then MKCOL else m
    case SEARCH => if k < 2 then SUBSCRIBE else m
    case PROPFIND | PUT | PATCH => if k < 2 then POST else m
    case PROPPATCH => if k < 2 then POST else if k < 5 then PROPFIND else m
    case PURGE => if k < 2 then POST else if k < 3 then PUT else m
    case UNSUBSCRIBE => if k < 3 then UNLOCK else m
    case _ => m
  }

  lemma NoNul(m: Method, k: nat)
    requires k < |MethodString(m)|
    ensures MethodString(m)[k] != '\0' && MethodString(m)[k] != ' '
  {
  }

  lemma GuessStart(m: Method)
    ensures |MethodString(m)| > 0 && IsAlpha(MethodString(m)[0]) && FirstGuess(MethodString(m)[0]) == [Guess(m, 1)]
  {
  }

  /** The next letter of a method that is not yet the guess: the guess holds, or is corrected. */
  lemma GuessNext(m: Method, k: nat)
    requires 1 <= k < |MethodString(m)| && Guess(m, k) != m
    ensures var g, ch := Guess(m, k), MethodString(m)[k];
            if ch == At(MethodString(g), k) then Guess(m, k + 1) == g
            else Correct(g, k, ch) == [Guess(m, k + 1)]
  {
  }

  lemma GuessStays(m: Method, k: nat)
    requires Guess(m, k) == m
    ensures Guess(m, k + 1) == m
  {
  }

  lemma {:induction false} MethodReached(p: Parser, m: Method, k: nat)
    requires p.state.StartReq? && p.errno.OK? && 1 <= k <= |MethodString(m)|
    ensures MethodState(p, MethodString(m)[..k]) ==
            p.(flags := NO_FLAGS, contentLength := ULLONG_MAX, httpMethod := Guess(m, k), index := k,
               state := ReqMethod)
  {
    hide MethodString, Correct, FirstGuess, IsAlpha, Guess;
    var w := MethodString(m)[..k];
    GuessStart(m);
    NoNul(m, k - 1);
    if k > 1 {
      assert w[..|w| - 1] == MethodString(m)[..k - 1];
      MethodReached(p, m, k - 1);
      if Guess(m, k - 1) == m {
        GuessStays(m, k - 1);
      } else {
        GuessNext(m, k - 1);
      }
    } else {
      StartLetter(p, w[0], Guess(m, 1));
    }
  }

  lemma StartLetter(p: Parser, ch: Octet, g: Method)
    requires p.state.StartReq? && IsAlpha(ch) && FirstGuess(ch) == [g]
    ensures StepStartReq(p, ch) ==
            Call(p.(flags := NO_FLAGS, contentLength := ULLONG_MAX, httpMethod := g, index := 1, state := ReqMethod),
                 MessageBegin)
  {
    assert ch != CR && ch != LF;
  }

  /** Each method is settled by its last letter. */
  lemma GuessSettles(m: Method)
    ensures Guess(m, |MethodString(m)|) == m
  {
  }

  /** The names of the methods. */
  lemma MethodNames()
    ensures MethodString(DELETE) == "DELETE" && MethodString(GET) == "GET" && MethodString(HEAD) == "HEAD"
    ensures MethodString(POST) == "POST" && MethodString(PUT) == "PUT" && MethodString(CONNECT) == "CONNECT"
    ensures MethodString(OPTIONS) == "OPTIONS" && MethodString(TRACE) == "TRACE" && MethodString(COPY) == "COPY"
    ensures MethodString(LOCK) == "LOCK" && MethodString(MKCOL) == "MKCOL" && MethodString(MOVE) == "MOVE"
    ensures MethodString(PROPFIND) == "PROPFIND" && MethodString(PROPPATCH) == "PROPPATCH"
    ensures MethodString(SEARCH) == "SEARCH" && MethodString(UNLOCK) == "UNLOCK" && MethodString(REPORT) == "REPORT"
    ensures MethodString(MKACTIVITY) == "MKACTIVITY" && MethodString(CHECKOUT) == "CHECKOUT"
    ensures MethodString(MERGE) == "MERGE" && MethodString(MSEARCH) == "M-SEARCH" && MethodString(NOTIFY) == "NOTIFY"
    ensures MethodString(SUBSCRIBE) == "SUBSCRIBE" && MethodString(UNSUBSCRIBE) == "UNSUBSCRIBE"
    ensures MethodString(PATCH) == "PATCH" && MethodString(PURGE) == "PURGE"
  {
  }

  /** A word and a space are taken as a method exactly when the word is the name of that method. */
  lemma MethodRecognized(p: Parser, w: seq<Octet>, m: Method)
    requires w != [] && p.state.StartReq? && p.errno.OK?
    ensures var q := MethodState(p, w);
            w == MethodString(m) <==>
            InMethod(q) && q.httpMethod == m && StepMethod(q, ' ').p.errno.OK?
              && StepMethod(q, ' ').p.state.ReqSpacesBeforeUrl?
  {
    hide MethodString, Guess, Correct, FirstGuess, IsAlpha;
    var q := MethodState(p, w);
    GuessAgrees(p, w);
    if w == MethodString(m) {
      assert w[..|w|] == w;
      MethodReached(p, m, |w|);
      GuessSettles(m);
    }
    if InMethod(q) && q.index < |MethodString(q.httpMethod)| {
      NoNul(q.httpMethod, q.index);
    }
    assert MethodString(q.httpMethod)[..|MethodString(q.httpMethod)|] == MethodString(q.httpMethod);
  }

  // ---------- the request line ----------

  /** The bytes of a method, and the callback for the new message. */
  lemma {:induction false} MethodRun(hc: SkipBody, r: Run, m: Method, k: nat)
    requires !Halted(r) && r.p.state.StartReq? && 1 <= k <= |MethodString(m)| && r.p.nread + k <= MAX_HEADER_SIZE
    ensures Feed(hc, r, MethodString(m)[..k]) ==
            At'(r, MethodState(r.p, MethodString(m)[..k]).(nread := r.p.nread + k), Append(r.log, MessageBegin), k)
  {
    hide Append, MethodString, Correct, FirstGuess, IsAlpha, Guess, Feed, StepMethod, MethodState;
    var w := MethodString(m)[..k];
    MethodReached(r.p, m, k);
    NoNul(m, k - 1);
    MethodSnoc(r.p, w);
    if k == 1 {
      GuessStart(m);
      StartLetter(r.p.(nread := r.p.nread + 1), w[0], Guess(m, 1));
      FirstLetterRun(hc, r, w[0], Guess(m, 1));
      assert w == [w[0]];
    } else {
      var u := MethodString(m)[..k - 1];
      assert u + [w[k - 1]] == w && w[..k - 1] == u;
      MethodRun(hc, r, m, k - 1);
      MethodReached(r.p, m, k - 1);
      MethodNread(MethodState(r.p, u), w[k - 1], r.p.nread + k - 1);
      LetterRun(hc, Feed(hc, r, u), w[k - 1]);
      FeedSplit(hc, r, u, [w[k - 1]]);
    }
  }

  lemma MethodSnoc(p: Parser, w: seq<Octet>)
    requires w != [] && p.state.StartReq?
    ensures |w| == 1 ==> MethodState(p, w) == StepStartReq(p, w[0]).p
    ensures |w| > 1 && InMethod(MethodState(p, w[..|w| - 1])) ==>
              MethodState(p, w) == StepMethod(MethodState(p, w[..|w| - 1]), w[|w| - 1]).p
  {
    hide StepMethod, StepStartReq;
  }

  lemma FirstLetterRun(hc: SkipBody, r: Run, ch: Octet, g: Method)
    requires !Halted(r) && r.p.state.StartReq? && IsAlpha(ch) && FirstGuess(ch) == [g] && r.p.nread < MAX_HEADER_SIZE
    ensures Feed(hc, r, [ch]) ==
            At'(r,
                r.p.(flags := NO_FLAGS, contentLength := ULLONG_MAX, httpMethod := g, index := 1, state := ReqMethod,
                     nread := r.p.nread + 1),
                Append(r.log, MessageBegin), 1)
  {
    hide Append, FirstGuess, IsAlpha;
    var q := r.p.(nread := r.p.nread + 1);
    StartLetter(q, ch, g);
    Loudly(hc, r, ch,
           q.(flags := NO_FLAGS, contentLength := ULLONG_MAX, httpMethod := g, index := 1, state := ReqMethod),
             MessageBegin);
  }

  lemma MethodNread(p: Parser, ch: Octet, n: nat)
    requires p.state.ReqMethod?
    ensures StepMethod(p.(nread := n), ch).p == StepMethod(p, ch).p.(nread := n)
  {
    hide MethodString, Correct;
  }

  lemma LetterRun(hc: SkipBody, r: Run, ch: Octet)
    requires !Halted(r) && r.p.state.ReqMethod? && r.p.nread < MAX_HEADER_SIZE && StepMethod(r.p, ch).p.errno.OK?
    ensures Feed(hc, r, [ch]) == At'(r, StepMethod(r.p, ch).p.(nread := r.p.nread + 1), r.log, 1)
  {
    hide MethodString, Correct;
    MethodNread(r.p, ch, r.p.nread + 1);
    Quietly(hc, r, ch, StepMethod(r.p, ch).p.(nread := r.p.nread + 1));
  }

  // ---------- URLs ----------

  /** Visible ASCII: what a path, a query and a fragment may hold. */
  predicate Visible(u: seq<Octet>) { forall i :: 0 <= i < |u| ==> '!' <= u[i] <= '~' }

  predicate IsLetter(ch: Octet) { 'a' <= ch <= 'z' || 'A' <= ch <= 'Z' }

  predicate IsServerChar(ch: Octet) { IsLetter(ch) || '0' <= ch <= '9' || ch in "-_.!~*'()%;:&=+$,[]" }

  /** The macros for these classes. */
  lemma ClassesAre(ch: Octet)
    ensures IsAlpha(ch) <==> IsLetter(ch)
    ensures IsServerChar(ch) <==> IsUserinfoChar(ch) || ch == '[' || ch == ']'
  {
  }

  /** A host, with user information and a port or without, and a path or a query if there is one. Two
      at signs may not follow each other; `at` says that one has just been seen. */
  predicate ServerUrl(u: seq<Octet>, at: bool) {
    || u == []
    || ((u[0] == '/' || u[0] == '?') && Visible(u))
    || (u[0] == '@' && !at && ServerUrl(u[1..], true))
    || (IsServerChar(u[0]) && ServerUrl(u[1..], false))
  }

  /** The rest of a URL that begins with letters: "://" comes after them, and a host after that. */
  predicate SchemaUrl(u: seq<Octet>) {
    u != [] &&
    if IsLetter(u[0]) then SchemaUrl(u[1..])
    else |u| > 3 && u[..3] == [':', '/', '/'] && ServerUrl(u[3..], false)
  }

  /** The URLs of requests: a host for CONNECT, else a path, an asterisk or an absolute URL. */
  predicate ValidUrl(m: Method, u: seq<Octet>) {
    u != [] &&
    if m.CONNECT? then ServerUrl(u, false)
    else if u[0] == '/' || u[0] == '*' then Visible(u)
    else IsLetter(u[0]) && SchemaUrl(u[1..])
  }

  predicate NoUrlEnd(u: seq<Octet>) { forall i :: 0 <= i < |u| ==> u[i] != ' ' && u[i] != CR && u[i] != LF }

  /** The state after the bytes of a URL, Dead if one of them is refused. */
  function UrlStateAfter(s: State, u: seq<Octet>): State
    decreases |u|
  {
    if u == [] || s.Dead? then s else UrlStateAfter(ParseUrlChar(s, u[0]), u[1..])
  }

  predicate PathState(s: State) {
    s.ReqPath? || s.ReqQueryStart? || s.ReqQuery? || s.ReqFragmentStart? || s.ReqFragment?
  }

  predicate ServerState(s: State) { s.ReqServer? || s.ReqServerWithAt? }

  /** Where a space ends the URL. */
  predicate UrlEndState(s: State) { PathState(s) || ServerState(s) }

  predicate SchemaState(s: State) { s.ReqSchema? || s.ReqSchemaSlash? || s.ReqSchemaSlashSlash? || s.ReqServerStart? }

  lemma PathByte(s: State, ch: Octet)
    requires PathState(s)
    ensures if '!' <= ch <= '~' then PathState(ParseUrlChar(s, ch)) else ParseUrlChar(s, ch).Dead?
  {
  }

  lemma {:induction false} PathIff(s: State, u: seq<Octet>)
    requires PathState(s)
    ensures if Visible(u) then PathState(UrlStateAfter(s, u)) else UrlStateAfter(s, u).Dead?
    decreases |u|
  {
    hide ParseUrlChar, PathState;
    if u != [] {
      PathByte(s, u[0]);
      assert Visible(u) <==> '!' <= u[0] <= '~' && Visible(u[1..]) by { VisibleCons(u); }
      if '!' <= u[0] <= '~' {
        PathIff(ParseUrlChar(s, u[0]), u[1..]);
      } else {
        DeadStays(u[1..]);
      }
    }
    PathIsNotDead(s);
  }

  lemma PathIsNotDead(s: State)
    ensures PathState(s) ==> !s.Dead?
  {
  }

  lemma VisibleCons(u: seq<Octet>)
    requires u != []
    ensures Visible(u) <==> '!' <= u[0] <= '~' && Visible(u[1..])
  {
    if '!' <= u[0] <= '~' && Visible(u[1..]) {
      forall i | 0 <= i < |u| ensures '!' <= u[i] <= '~' {
        assert i > 0 ==> u[i] == u[1..][i - 1];
      }
    }
  }

  lemma DeadStays(u: seq<Octet>)
    ensures UrlStateAfter(Dead, u) == Dead
  {
  }

  lemma ServerByte(s: State, ch: Octet)
    requires ServerState(s) || s.ReqServerStart?
    ensures var t := ParseUrlChar(s, ch);
            if ch == '/' || ch == '?' then PathState(t)
            else if ch == '@' then t == if s.ReqServerWithAt? then Dead else ReqServerWithAt
            else t == if IsServerChar(ch) then ReqServer else Dead
  {
    ServerCharIsVisible(ch);
    ClassesAre(ch);
    hide IsUserinfoChar, IsServerChar;
  }

  lemma ServerCharIsVisible(ch: Octet)
    ensures IsUserinfoChar(ch) ==> '!' <= ch <= '~' && ch != '/' && ch != '?' && ch != '@'
  {
  }

  lemma {:induction false} ServerIff(s: State, u: seq<Octet>)
    requires ServerState(s) || s.ReqServerStart?
    ensures if ServerUrl(u, s.ReqServerWithAt?) then u == [] || UrlEndState(UrlStateAfter(s, u))
            else UrlStateAfter(s, u).Dead?
    decreases |u|
  {
    hide ParseUrlChar, PathState, IsServerChar, Visible;
    if u != [] {
      var t := ParseUrlChar(s, u[0]);
      ServerByte(s, u[0]);
      SlashIsNoServerChar(u[0]);
      DeadStays(u[1..]);
      if u[0] == '/' || u[0] == '?' {
        VisibleCons(u);
        PathIff(t, u[1..]);
      } else if !t.Dead? {
        ServerIff(t, u[1..]);
      }
    }
  }

  lemma SlashIsNoServerChar(ch: Octet)
    ensures ch == '/' || ch == '?' || ch == '@' ==> !IsServerChar(ch)
  {
  }

  lemma SchemaByte(ch: Octet)
    ensures ParseUrlChar(ReqSchema, ch) == if IsAlpha(ch) then ReqSchema else if ch == ':' then ReqSchemaSlash else Dead
    ensures ParseUrlChar(ReqSchemaSlash, ch) == if ch == '/' then ReqSchemaSlashSlash else Dead
    ensures ParseUrlChar(ReqSchemaSlashSlash, ch) == if ch == '/' then ReqServerStart else Dead
  {
  }

  lemma {:induction false} SchemaIff(u: seq<Octet>)
    ensures var s := UrlStateAfter(ReqSchema, u);
            if SchemaUrl(u) then UrlEndState(s) else s.Dead? || SchemaState(s)
    decreases |u|
  {
    hide ParseUrlChar, ServerUrl, IsAlpha, IsLetter, UrlEndState;
    if u != [] {
      SchemaByte(u[0]);
      ClassesAre(u[0]);
      if IsAlpha(u[0]) {
        SchemaIff(u[1..]);
      } else {
        AfterSchema(u);
      }
    }
  }

  lemma AfterSchema(u: seq<Octet>)
    requires u != [] && !IsAlpha(u[0])
    ensures var s := UrlStateAfter(ReqSchema, u);
            if |u| > 3 && u[..3] == [':', '/', '/'] && ServerUrl(u[3..], false) then UrlEndState(s)
            else s.Dead? || SchemaState(s)
  {
    hide ParseUrlChar, ServerUrl, IsAlpha, UrlEndState, UrlStateAfter;
    SchemaByte(u[0]);
    StateCons(ReqSchema, u);
    DeadStays(u[1..]);
    if u[0] == ':' {
      StateNone(ReqSchemaSlash);
      if |u| > 1 {
        AfterColon(u);
      } else {
        assert u[1..] == [];
      }
    }
  }

  lemma AfterColon(u: seq<Octet>)
    requires |u| > 1 && u[0] == ':'
    ensures var s := UrlStateAfter(ReqSchemaSlash, u[1..]);
            if |u| > 3 && u[..3] == [':', '/', '/'] && ServerUrl(u[3..], false) then UrlEndState(s)
            else s.Dead? || SchemaState(s)
  {
    hide ParseUrlChar, ServerUrl, UrlEndState, UrlStateAfter;
    SchemaByte(u[1]);
    StateCons(ReqSchemaSlash, u[1..]);
    assert u[1..][1..] == u[2..];
    DeadStays(u[2..]);
    if u[1] == '/' {
      StateNone(ReqSchemaSlashSlash);
      if |u| > 2 {
        SchemaByte(u[2]);
        StateCons(ReqSchemaSlashSlash, u[2..]);
        assert u[2..][1..] == u[3..] && u[..3] == [u[0], u[1], u[2]];
        DeadStays(u[3..]);
        StateNone(ReqServerStart);
        ServerIff(ReqServerStart, u[3..]);
      }
    }
  }

  lemma StateCons(s: State, u: seq<Octet>)
    requires u != [] && !s.Dead?
    ensures UrlStateAfter(s, u) == UrlStateAfter(ParseUrlChar(s, u[0]), u[1..])
  {
  }

  lemma StateNone(s: State)
    ensures UrlStateAfter(s, []) == s
  {
  }

  /** The state in which the first byte of a URL is taken. */
  function UrlStart(m: Method): State { if m.CONNECT? then ReqServerStart else ReqSpacesBeforeUrl }

  lemma FirstUrlByte(ch: Octet)
    ensures ParseUrlChar(ReqSpacesBeforeUrl, ch) ==
            if ch == '/' || ch == '*' then ReqPath else if IsAlpha(ch) then ReqSchema else Dead
    ensures ch == '/' || ch == '*' ==> !IsAlpha(ch) && '!' <= ch <= '~'
  {
  }

  /** The states of the URL are those of its grammar: they end well if and only if it is valid. */
  lemma UrlIff(m: Method, u: seq<Octet>)
    requires u != []
    ensures var s := UrlStateAfter(UrlStart(m), u);
            if ValidUrl(m, u) then UrlEndState(s) else s.Dead? || SchemaState(s)
  {
    hide ParseUrlChar, ServerUrl, SchemaUrl, Visible, IsAlpha, IsLetter, UrlEndState;
    ClassesAre(u[0]);
    if m.CONNECT? {
      ServerIff(ReqServerStart, u);
    } else {
      FirstUrlByte(u[0]);
      DeadStays(u[1..]);
      VisibleCons(u);
      if u[0] == '/' || u[0] == '*' {
        PathIff(ReqPath, u[1..]);
        PathEnds(UrlStateAfter(ReqPath, u[1..]));
      } else if IsAlpha(u[0]) {
        SchemaIff(u[1..]);
      }
    }
  }

  lemma PathEnds(s: State)
    ensures PathState(s) ==> UrlEndState(s)
  {
  }

  /** One byte of a URL, of which `s` is the state it is taken in. */
  lemma UrlByteRun(hc: SkipBody, r: Run, s: State, ch: Octet)
    requires !Halted(r) && r.p.nread < MAX_HEADER_SIZE && ch != ' ' && ch != CR && ch != LF
    requires if r.p.state.ReqSpacesBeforeUrl? then s == UrlStart(r.p.httpMethod) else s == r.p.state && UrlState(s)
    ensures var t := ParseUrlChar(s, ch);
            var s' := Feed(hc, r, [ch]);
            if t.Dead? then s'.p.errno == INVALID_URL
            else
              UrlState(t)
                && s' == At'(r, r.p.(state := t, nread := r.p.nread + 1), Append(r.log, Data(UrlData, [ch])), 1)
  {
    hide Append, ParseUrlChar, AppendAll;
    var t := ParseUrlChar(s, ch);
    UrlTurn(hc, r.p, s, ch);
    hide Turn;
    if t.Dead? {
      FeedByte(hc, r, ch);
    } else {
      UrlStateNext(s, ch);
      Loudly(hc, r, ch, r.p.(state := t, nread := r.p.nread + 1), Data(UrlData, [ch]));
    }
  }

  lemma UrlTurn(hc: SkipBody, p: Parser, s: State, ch: Octet)
    requires p.nread < MAX_HEADER_SIZE && ch != ' ' && ch != CR && ch != LF
    requires if p.state.ReqSpacesBeforeUrl? then s == UrlStart(p.httpMethod) else s == p.state && UrlState(s)
    ensures Turn(hc, p, ch) == UrlByte(p.(nread := p.nread + 1), s, ch)
  {
    hide ParseUrlChar, UrlByte;
    UrlStep(p.(nread := p.nread + 1), s, ch);
    hide StepUrl;
  }

  lemma UrlStep(p: Parser, s: State, ch: Octet)
    requires ch != ' ' && ch != CR && ch != LF
    requires if p.state.ReqSpacesBeforeUrl? then s == UrlStart(p.httpMethod) else s == p.state && UrlState(s)
    ensures StepUrl(p, ch) == UrlByte(p, s, ch)
  {
    hide UrlByte;
  }

  lemma UrlStateNext(s: State, ch: Octet)
    ensures ParseUrlChar(s, ch).Dead? || UrlState(ParseUrlChar(s, ch))
  {
    hide IsUserinfoChar, IsUrlChar, IsAlpha;
  }

  /** The outcome of some bytes of a URL that lead to state `t`. */
  ghost predicate UrlDone(hc: SkipBody, r: Run, u: seq<Octet>, t: State) {
    var s' := Feed(hc, r, u);
    if t.Dead? then s'.p.errno == INVALID_URL
    else
      UrlState(t) && s' == At'(r, r.p.(state := t, nread := r.p.nread + |u|), Append(r.log, Data(UrlData, u)), |u|)
  }

  lemma UrlJoin(hc: SkipBody, r: Run, u: seq<Octet>, v: seq<Octet>, s: State, t: State)
    requires !Halted(r) && UrlDone(hc, r, u, s) && !s.Dead? && UrlDone(hc, Feed(hc, r, u), v, t)
    ensures UrlDone(hc, r, u + v, t)
  {
    hide Append, Feed, UrlState;
    FeedSplit(hc, r, u, v);
    AppendData(r.log, UrlData, u, v);
  }

  lemma {:induction false} UrlRun(hc: SkipBody, r: Run, s: State, u: seq<Octet>)
    requires !Halted(r) && r.p.nread + |u| <= MAX_HEADER_SIZE && u != [] && NoUrlEnd(u)
    requires if r.p.state.ReqSpacesBeforeUrl? then s == UrlStart(r.p.httpMethod) else s == r.p.state && UrlState(s)
    ensures UrlDone(hc, r, u, UrlStateAfter(s, u))
    decreases |u|
  {
    hide *;
    var t, tail, r1 := ParseUrlChar(s, u[0]), u[1..], Feed(hc, r, [u[0]]);
    UrlFirst(hc, r, s, u);
    assert [u[0]] + tail == u;
    if t.Dead? {
      FeedSplit(hc, r, [u[0]], tail);
      HaltedStays(hc, r1, tail);
    } else if tail != [] {
      UrlRun(hc, r1, t, tail);
      UrlJoin(hc, r, [u[0]], tail, t, UrlStateAfter(t, tail));
    } else {
      assert u == [u[0]];
    }
    UrlDead(hc, r, u, UrlStateAfter(s, u));
  }

  lemma UrlDead(hc: SkipBody, r: Run, u: seq<Octet>, t: State)
    ensures t.Dead? ==> (UrlDone(hc, r, u, t) <==> Feed(hc, r, u).p.errno == INVALID_URL)
  {
  }

  /** The first byte of a URL, and what is to be known about the rest. */
  lemma UrlFirst(hc: SkipBody, r: Run, s: State, u: seq<Octet>)
    requires !Halted(r) && r.p.nread < MAX_HEADER_SIZE && u != [] && NoUrlEnd(u)
    requires if r.p.state.ReqSpacesBeforeUrl? then s == UrlStart(r.p.httpMethod) else s == r.p.state && UrlState(s)
    ensures var t, tail, r1 := ParseUrlChar(s, u[0]), u[1..], Feed(hc, r, [u[0]]);
            && NoUrlEnd(tail) && UrlStateAfter(s, u) == UrlStateAfter(t, tail) && UrlDone(hc, r, [u[0]], t)
            && (tail == [] || t.Dead? ==> UrlStateAfter(t, tail) == t)
            && (t.Dead? ==> Halted(r1) && r1.p.errno == INVALID_URL)
            && (!t.Dead? ==> !Halted(r1) && r1.p.state == t && UrlState(t) && !t.ReqSpacesBeforeUrl?
                             && r1.p.nread == r.p.nread + 1)
  {
    NoUrlEndRest(u);
    StateCons(s, u);
    StateNone(ParseUrlChar(s, u[0]));
    DeadStays(u[1..]);
    hide ParseUrlChar, Append, Feed;
    UrlByteRun(hc, r, s, u[0]);
  }

  lemma NoUrlEndRest(u: seq<Octet>)
    requires NoUrlEnd(u) && u != []
    ensures NoUrlEnd(u[1..]) && u[0] != ' ' && u[0] != CR && u[0] != LF
  {
  }

  lemma UrlEnd(hc: SkipBody, r: Run)
    requires !Halted(r) && UrlState(r.p.state) && r.p.nread < MAX_HEADER_SIZE
    ensures if UrlEndState(r.p.state)
            then Feed(hc, r, [' ']) ==
                 At'(r, r.p.(state := ReqHttpStart, nread := r.p.nread + 1), Append(r.log, Data(UrlData, [])), 1)
            else Feed(hc, r, [' ']).p.errno == INVALID_URL
  {
    hide Append, AppendAll, UrlEndState;
    UrlEndStep(r.p.(nread := r.p.nread + 1));
    hide StepUrl;
    assert Turn(hc, r.p, ' ') == StepUrl(r.p.(nread := r.p.nread + 1), ' ');
    hide Turn;
    if UrlEndState(r.p.state) {
      Loudly(hc, r, ' ', r.p.(state := ReqHttpStart, nread := r.p.nread + 1), Data(UrlData, []));
    } else {
      FeedByte(hc, r, ' ');
    }
  }

  lemma UrlEndStep(p: Parser)
    requires UrlState(p.state)
    ensures StepUrl(p, ' ') ==
            if UrlEndState(p.state) then Call(p.(state := ReqHttpStart), Data(UrlData, [])) else Fail(p, INVALID_URL)
  {
  }

  /** A URL and the space after it are accepted if and only if the URL is valid for the method; then it
      is reported as it is. */
  lemma WholeUrlRun(hc: SkipBody, r: Run, u: seq<Octet>)
    requires !Halted(r) && r.p.state.ReqSpacesBeforeUrl? && u != [] && NoUrlEnd(u)
             && r.p.nread + |u| + 1 <= MAX_HEADER_SIZE
    ensures if ValidUrl(r.p.httpMethod, u)
            then Feed(hc, r, u + [' ']) ==
                 At'(r, r.p.(state := ReqHttpStart, nread := r.p.nread + |u| + 1), Append(r.log, Data(UrlData, u)),
                     |u| + 1)
            else Feed(hc, r, u + [' ']).p.errno == INVALID_URL
  {
    hide Append, Feed, UrlStateAfter, ValidUrl, UrlEndState, NoUrlEnd, UrlStart;
    var s := UrlStart(r.p.httpMethod);
    var t := UrlStateAfter(s, u);
    UrlIff(r.p.httpMethod, u);
    UrlRun(hc, r, s, u);
    EndIsNoSchema(t);
    FeedSplit(hc, r, u, [' ']);
    if t.Dead? {
      HaltedStays(hc, Feed(hc, r, u), [' ']);
    } else {
      UrlEnd(hc, Feed(hc, r, u));
      AppendData(r.log, UrlData, u, []);
      assert u + [] == u;
    }
  }

  lemma EndIsNoSchema(s: State)
    ensures UrlEndState(s) ==> !s.Dead? && !SchemaState(s)
  {
  }

  /** A valid URL holds no byte that would end it. */
  lemma {:induction false} ServerHasNoEnd(u: seq<Octet>, at: bool)
    requires ServerUrl(u, at)
    ensures NoUrlEnd(u)
  {
    if u != [] && u[0] != '/' && u[0] != '?' {
      ServerHasNoEnd(u[1..], u[0] == '@');
      NoUrlEndCons(u);
    }
  }

  lemma NoUrlEndCons(u: seq<Octet>)
    requires u != [] && u[0] != ' ' && u[0] != CR && u[0] != LF && NoUrlEnd(u[1..])
    ensures NoUrlEnd(u)
  {
    forall i | 0 <= i < |u| ensures u[i] != ' ' && u[i] != CR && u[i] != LF {
      assert i > 0 ==> u[i] == u[1..][i - 1];
    }
  }

  lemma {:induction false} SchemaHasNoEnd(u: seq<Octet>)
    requires SchemaUrl(u)
    ensures NoUrlEnd(u)
  {
    if IsLetter(u[0]) {
      SchemaHasNoEnd(u[1..]);
      NoUrlEndCons(u);
    } else {
      ServerHasNoEnd(u[3..], false);
      forall i | 0 <= i < |u| ensures u[i] != ' ' && u[i] != CR && u[i] != LF {
        assert if i < 3 then u[i] == u[..3][i] else u[i] == u[3..][i - 3];
      }
    }
  }

  lemma ValidHasNoEnd(m: Method, u: seq<Octet>)
    requires ValidUrl(m, u)
    ensures u != [] && NoUrlEnd(u)
  {
    if m.CONNECT? {
      ServerHasNoEnd(u, false);
    } else if !(u[0] == '/' || u[0] == '*') {
      SchemaHasNoEnd(u[1..]);
      NoUrlEndCons(u);
    }
  }

  /** The version of a request, with the spaces before it beyond the first. */
  datatype Version = Version(gap: seq<Octet>, major: seq<Octet>, minor: seq<Octet>)

  /** `gap` is the spaces before the URL beyond the first; without a version it is a request of HTTP/0.9. */
  datatype RequestLine =
    RequestLine(m: Method, gap: seq<Octet>, url: seq<Octet>, version: Option<Version>, end: seq<Octet>)

  predicate ValidVersion(v: Version) {
    Spaces(v.gap) && SmallNumber(v.major) && SmallNumber(v.minor) && v.major[0] != '0'
  }

  predicate ValidRequestLine(l: RequestLine) {
    && Spaces(l.gap) && ValidUrl(l.m, l.url) && IsBreak(l.end)
    && (l.version.Some? ==> ValidVersion(l.version.value))
  }

  /** The two numbers of the version. */
  function Numbers(v: Option<Version>): (nat, nat)
    requires v.Some? ==> ValidVersion(v.value)
  {
    match v
    case None => (0, 9)
    case Some(w) => (Number(w.major), Number(w.minor))
  }

  function VersionPartText(v: Version): seq<Octet> { [' '] + v.gap + (['H'] + VersionText(v.major, v.minor)) }

  /** What comes after the URL. */
  function LineTail(l: RequestLine): seq<Octet> {
    (match l.version case None => [] case Some(v) => VersionPartText(v)) + l.end
  }

  function RequestLineText(l: RequestLine): seq<Octet> {
    MethodString(l.m) + [' '] + l.gap + (l.url + LineTail(l))
  }

  /** A request line: its method and version reach the record, its URL the callback. */
  lemma RequestLineRun(hc: SkipBody, r: Run, l: RequestLine)
    requires !Halted(r) && r.p.state.StartReq? && ValidRequestLine(l)
    requires r.p.nread + |RequestLineText(l)| <= MAX_HEADER_SIZE
    ensures var s := Feed(hc, r, RequestLineText(l));
            s == At'(r,
                     r.p.(flags := NO_FLAGS, contentLength := ULLONG_MAX, httpMethod := l.m,
                          major := Numbers(l.version).0,
                          minor := Numbers(l.version).1, state := FieldStart,
                          nread := r.p.nread + |RequestLineText(l)|, index := s.p.index),
                     AppendAll(r.log, [MessageBegin, Data(UrlData, l.url)]), |RequestLineText(l)|)
  {
    hide Append, AppendAll, Number, ValidUrl, MethodString, Guess, Feed, LineTail, Numbers, Spaces, IsBreak,
         ValidVersion;
    var w := MethodString(l.m);
    MethodPart(hc, r, l.m);
    SpacesRun(hc, Feed(hc, r, w + [' ']), l.gap);
    FeedSplit(hc, r, w + [' '], l.gap);
    var a := w + [' '] + l.gap;
    UrlPart(hc, Feed(hc, r, a), l);
    FeedSplit(hc, r, a, l.url + LineTail(l));
    AppendTwo(r.log, MessageBegin, Data(UrlData, l.url));
  }

  /** The URL and the rest of the line. */
  lemma UrlPart(hc: SkipBody, r: Run, l: RequestLine)
    requires !Halted(r) && r.p.state.ReqSpacesBeforeUrl? && r.p.httpMethod == l.m && ValidRequestLine(l)
    requires r.p.nread + |l.url + LineTail(l)| <= MAX_HEADER_SIZE
    ensures var n := |l.url + LineTail(l)|;
            Feed(hc, r, l.url + LineTail(l)) ==
            At'(r, r.p.(major := Numbers(l.version).0, minor := Numbers(l.version).1, state := FieldStart,
                        nread := r.p.nread + n), Append(r.log, Data(UrlData, l.url)), n)
  {
    hide *;
    TailIs(l);
    ValidHasNoEnd(l.m, l.url);
    match l.version
    case None => OldUrlRun(hc, r, l.url, l.end);
    case Some(v) => NewUrlRun(hc, r, l.url, v, l.end);
  }

  lemma TailIs(l: RequestLine)
    requires ValidRequestLine(l)
    ensures IsBreak(l.end) && (l.version.Some? ==> ValidVersion(l.version.value))
    ensures LineTail(l) == if l.version.None? then l.end else VersionPartText(l.version.value) + l.end
    ensures Numbers(l.version) ==
            if l.version.None? then (0, 9) else (Number(l.version.value.major), Number(l.version.value.minor))
    ensures ValidUrl(l.m, l.url)
  {
  }

  /** A URL with a version after it. */
  lemma NewUrlRun(hc: SkipBody, r: Run, u: seq<Octet>, v: Version, end: seq<Octet>)
    requires !Halted(r) && r.p.state.ReqSpacesBeforeUrl? && ValidUrl(r.p.httpMethod, u) && NoUrlEnd(u) && u != []
    requires ValidVersion(v) && IsBreak(end) && r.p.nread + |u + (VersionPartText(v) + end)| <= MAX_HEADER_SIZE
    ensures var n := |u + (VersionPartText(v) + end)|;
            Feed(hc, r, u + (VersionPartText(v) + end)) ==
            At'(r,
                r.p.(major := Number(v.major), minor := Number(v.minor), state := FieldStart, nread := r.p.nread + n),
                Append(r.log, Data(UrlData, u)), n)
  {
    hide Append, Number, ValidUrl, Feed, Spaces, IsBreak, VersionText, SmallNumber, NoUrlEnd;
    var a, tail := u + [' '], ['H'] + VersionText(v.major, v.minor) + end;
    assert u + (VersionPartText(v) + end) == a + v.gap + tail;
    WholeUrlRun(hc, r, u);
    SpacesRun(hc, Feed(hc, r, a), v.gap);
    FeedSplit(hc, r, a, v.gap);
    VersionPart(hc, Feed(hc, r, a + v.gap), v, end);
    FeedSplit(hc, r, a + v.gap, tail);
  }

  /** A request of HTTP/0.9 ends with its URL. */
  lemma OldUrlRun(hc: SkipBody, r: Run, u: seq<Octet>, e: seq<Octet>)
    requires !Halted(r) && r.p.state.ReqSpacesBeforeUrl? && ValidUrl(r.p.httpMethod, u) && NoUrlEnd(u) && u != []
    requires IsBreak(e) && r.p.nread + |u| + |e| <= MAX_HEADER_SIZE
    ensures Feed(hc, r, u + e) ==
            At'(r, r.p.(major := 0, minor := 9, state := FieldStart, nread := r.p.nread + |u| + |e|),
                Append(r.log, Data(UrlData, u)), |u| + |e|)
  {
    hide Append, Feed, UrlStateAfter, ValidUrl, UrlEndState, NoUrlEnd, UrlStart, IsBreak;
    var t := UrlStateAfter(UrlStart(r.p.httpMethod), u);
    UrlIff(r.p.httpMethod, u);
    EndIsNoSchema(t);
    UrlRun(hc, r, UrlStart(r.p.httpMethod), u);
    UrlBreak(hc, Feed(hc, r, u), r.log, u, e);
    FeedSplit(hc, r, u, e);
  }

  lemma UrlBreak(hc: SkipBody, r: Run, log: seq<Event>, u: seq<Octet>, e: seq<Octet>)
    requires !Halted(r) && UrlEndState(r.p.state) && IsBreak(e) && r.p.nread + |e| <= MAX_HEADER_SIZE
    requires r.log == Append(log, Data(UrlData, u))
    ensures Feed(hc, r, e) ==
            At'(r, r.p.(major := 0, minor := 9, state := FieldStart, nread := r.p.nread + |e|), r.log, |e|)
  {
    hide Append, Feed, UrlEndState;
    AppendData(log, UrlData, u, []);
    assert u + [] == u;
    UrlBreakByte(hc, r, e[0]);
    if e == [CR, LF] {
      LineFeed(hc, Feed(hc, r, [CR]));
      FeedSplit(hc, r, [CR], [LF]);
      assert [CR] + [LF] == [CR, LF];
    }
  }

  lemma LineFeed(hc: SkipBody, r: Run)
    requires !Halted(r) && r.p.state.ReqLineAlmostDone? && r.p.nread < MAX_HEADER_SIZE
    ensures Feed(hc, r, [LF]) == At'(r, r.p.(state := FieldStart, nread := r.p.nread + 1), r.log, 1)
  {
    PartByte(hc, r, LF);
  }

  lemma UrlBreakByte(hc: SkipBody, r: Run, ch: Octet)
    requires !Halted(r) && UrlEndState(r.p.state) && (ch == CR || ch == LF) && r.p.nread < MAX_HEADER_SIZE
    ensures Feed(hc, r, [ch]) ==
            At'(r, r.p.(major := 0, minor := 9, state := if ch == CR then ReqLineAlmostDone else FieldStart,
                        nread := r.p.nread + 1), Append(r.log, Data(UrlData, [])), 1)
  {
    hide Append, Feed, UrlEndState, Turn;
    UrlBreakTurn(hc, r.p, ch);
    Loudly(hc, r, ch, r.p.(major := 0, minor := 9, state := if ch == CR then ReqLineAlmostDone else FieldStart,
                           nread := r.p.nread + 1), Data(UrlData, []));
  }

  lemma UrlBreakTurn(hc: SkipBody, p: Parser, ch: Octet)
    requires UrlEndState(p.state) && (ch == CR || ch == LF) && p.nread < MAX_HEADER_SIZE
    ensures Turn(hc, p, ch) ==
            Call(p.(major := 0, minor := 9, state := if ch == CR then ReqLineAlmostDone else FieldStart,
                    nread := p.nread + 1), Data(UrlData, []))
  {
  }

  lemma MethodPart(hc: SkipBody, r: Run, m: Method)
    requires !Halted(r) && r.p.state.StartReq? && r.p.nread + |MethodString(m)| + 1 <= MAX_HEADER_SIZE
    ensures var w := MethodString(m);
            Feed(hc, r, w + [' ']) ==
            At'(r,
                r.p.(flags := NO_FLAGS, contentLength := ULLONG_MAX, httpMethod := m, index := |w| + 1,
                     state := ReqSpacesBeforeUrl,
                        nread := r.p.nread + |w| + 1), Append(r.log, MessageBegin), |w| + 1)
  {
    hide Append, MethodString, Guess, Advance, FirstGuess, Correct;
    var w := MethodString(m);
    GuessStart(m);
    GuessSettles(m);
    assert w[..|w|] == w;
    MethodRun(hc, r, m, |w|);
    MethodReached(r.p, m, |w|);
    LetterRun(hc, Feed(hc, r, w), ' ');
    FeedSplit(hc, r, w, [' ']);
  }

  lemma VersionPart(hc: SkipBody, r: Run, w: Version, end: seq<Octet>)
    requires !Halted(r) && r.p.state.ReqHttpStart? && ValidVersion(w) && IsBreak(end)
    requires r.p.nread + |VersionText(w.major, w.minor)| + 1 + |end| <= MAX_HEADER_SIZE
    ensures var v := VersionText(w.major, w.minor);
            Feed(hc, r, ['H'] + v + end) ==
            At'(r,
                r.p.(major := Number(w.major), minor := Number(w.minor), state := FieldStart,
                     nread := r.p.nread + |v| + 1 + |end|),
                r.log, |v| + 1 + |end|)
  {
    hide Number, Digits, VersionText, Feed, IsBreak;
    var v := VersionText(w.major, w.minor);
    PartByte(hc, r, 'H');
    hide NextPart;
    VersionRun(hc, Feed(hc, r, ['H']), w.major, w.minor);
    FeedSplit(hc, r, ['H'], v);
    BreakRun(hc, Feed(hc, r, ['H'] + v), end);
    FeedSplit(hc, r, ['H'] + v, end);
  }
}
