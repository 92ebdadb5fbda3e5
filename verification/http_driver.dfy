/** Feeding a parser piece by piece. */
module HttpDriver {
  import opened Common
  import opened HttpTypes
  import opened HttpStep
  import opened HttpRun
  import opened HttpParserImpl
  import opened HttpSplit
  import opened HttpBody
  import opened HttpRoundTrip

  /** The documented way to use the parser: one call for each piece that arrives, until errno or
      upgrade is set.  Whatever the pieces, the outcome is that of the bytes taken one at a time. */
  method ExecuteAll(parser: HttpParser, chunks: seq<seq<Octet>>) returns (consumed: nat)
    requires parser.Valid() && parser.errno.OK? && !parser.upgrade
    requires forall c :: c in chunks ==> c != []
    modifies parser
    ensures parser.Valid()
    ensures var r := Feed(parser.onHeadersComplete, old(Run(parser.View(), Log(parser.calls), 0, false)),
                          Concat(chunks));
            && parser.View() == r.p && consumed == r.consumed
            && (parser.errno.OK? ==> Log(parser.calls) == r.log)
  {
    hide Turn, Advance, Inv, Log;
    var hc := parser.onHeadersComplete;
    ghost var r0 := Run(parser.View(), Log(parser.calls), 0, false);
    consumed := 0;
    var i := 0;
    assert chunks[..0] == [];
    while i < |chunks| && parser.errno.OK? && !parser.upgrade
      invariant i <= |chunks| && parser.Valid() && parser.onHeadersComplete == hc
      invariant var r := Feed(hc, r0, Concat(chunks[..i]));
                && parser.View() == r.p && consumed == r.consumed
                && (parser.errno.OK? ==> Log(parser.calls) == r.log && (r.stopped <==> parser.upgrade))
    {
      ghost var r := Feed(hc, r0, Concat(chunks[..i]));
      assert chunks[i] in chunks;
      var n := parser.Execute(chunks[i]);
      FeedOffset(hc, Run(r.p, r.log, 0, false), consumed, chunks[i]);
      assert chunks[..i + 1] == chunks[..i] + [chunks[i]];
      ConcatSnoc(chunks[..i], chunks[i]);
      FeedSplit(hc, r0, Concat(chunks[..i]), chunks[i]);
      consumed := consumed + n;
      i := i + 1;
    }
    assert chunks[..|chunks|] == chunks;
    ConcatRest(chunks, i);
    FeedSplit(hc, r0, Concat(chunks[..i]), Concat(chunks[i..]));
  }

  /** A connection from its first byte to its end: messages of one kind that arrive in any pieces are reported
      as they were written. The call without bytes at the end completes a body that waits for it. */
  method Receive(kind: ParserType, hc: SkipBody, pieces: seq<seq<Octet>>, ghost ms: seq<Message>, ghost skip: bool)
      returns (parser: HttpParser)
    requires !kind.Both? && Answers(hc, skip) && ValidSeries(ms, kind, 0, skip) && Concat(pieces) == Texts(ms)
    requires forall c :: c in pieces ==> c != []
    ensures fresh(parser) && parser.errno.OK? && Log(parser.calls) == AppendAll([], AllEvents(ms))
    ensures (forall i :: 0 <= i < |ms| ==> AllValued(ms[i])) ==> Log(parser.calls) == AllEvents(ms)
  {
    parser := new HttpParser(kind, hc);
    ghost var r := Run(Init(kind), [], 0, false);
    hide AppendAll, Feed, Calls, Texts, AllEvents, ValidSeries, Answers, AllValued, AllOver, Inv, Concat, EofOf;
    InPieces(hc, ms, kind, skip, pieces);
    CallsIsFeed(hc, r, pieces);
    AppendNone([]);
    var _ := ExecuteAll(parser, pieces);
    var _ := parser.Execute([]);
  }
}
