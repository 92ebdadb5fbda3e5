/** Runs over stretches of input, and the bulk steps that the body states take over them. */
module HttpBulk {
  import opened HttpTypes
  import opened HttpStep
  import opened HttpRun

  lemma FeedMore(hc: SkipBody, r: Run, data: seq<Octet>, p: nat, q: nat)
    requires p <= q <= |data|
    ensures Feed(hc, r, data[..q]) == Feed(hc, Feed(hc, r, data[..p]), data[p..q])
  {
    assert data[..p] + data[p..q] == data[..q];
    FeedSplit(hc, r, data[..p], data[p..q]);
  }

  lemma FeedOne(hc: SkipBody, data: seq<Octet>, p: nat, r: Run)
    requires p < |data| && !Halted(r)
    ensures Feed(hc, r, data[p..p + 1]) == Advance(hc, r, data[p])
  {
    hide Advance;
    assert data[p..p + 1][0] == data[p] && data[p..p + 1][1..] == [];
  }

  /** Once a run has halted, the rest of the bytes change nothing. */
  lemma FeedRest(hc: SkipBody, r: Run, data: seq<Octet>, p: nat)
    requires p <= |data|
    ensures Halted(Feed(hc, r, data[..p])) ==> Feed(hc, r, data) == Feed(hc, r, data[..p])
  {
    hide Advance;
    FeedMore(hc, r, data, p, |data|);
    assert data[..|data|] == data;
  }

  lemma NewMessageState(p: Parser, s: State)
    ensures NewMessage(p.(state := s)) == NewMessage(p)
  {
  }

  /** What a run of body bytes amounts to: the bulk step of the source. */
  function Bulk(p: Parser, log: seq<Event>, bs: seq<Octet>): Run
    requires |bs| <= p.contentLength
  {
    var q := p.(contentLength := p.contentLength - |bs|);
    var log' := Append(log, Data(BodyData, bs));
    if q.contentLength > 0 then Run(q, log', |bs|, false)
    else if p.state.ChunkData? then Run(q.(state := ChunkDataAlmostDone), log', |bs|, false)
    else Run(q.(state := NewMessage(q)), Append(log', MessageComplete), |bs|, false)
  }

  /** The bulk step is the byte-by-byte run. */
  lemma {:induction false} BulkIsFeed(hc: SkipBody, p: Parser, log: seq<Event>, n: nat, bs: seq<Octet>)
    requires p.errno.OK? && (p.state.BodyIdentity? || p.state.ChunkData?)
    requires 0 < |bs| <= p.contentLength
    ensures var r := Bulk(p, log, bs);
            Feed(hc, Run(p, log, n, false), bs) == r.(consumed := n + |bs|)
    decreases |bs|
  {
    hide Append, NewMessage;
    var r := Run(p, log, n, false);
    var s := Advance(hc, r, bs[0]);
    var d := Data(BodyData, [bs[0]]);
    AppendOne(log, d);
    assert [bs[0]] + bs[1..] == bs;
    if p.contentLength == 1 {
      assert bs[1..] == [] && bs == [bs[0]];
      AppendCons(log, d, [MessageComplete]);
      AppendOne(Append(log, d), MessageComplete);
      assert [d] + [MessageComplete] == [d, MessageComplete];
    } else {
      var q := p.(contentLength := p.contentLength - 1);
      assert s == Run(q, Append(log, d), n + 1, false);
      if |bs| > 1 {
        BulkIsFeed(hc, q, Append(log, d), n + 1, bs[1..]);
        AppendData(log, BodyData, [bs[0]], bs[1..]);
      } else {
        assert bs[1..] == [] && bs == [bs[0]];
      }
    }
  }

  /** Reading up to the end of the connection. */
  lemma {:induction false} EofBulkIsFeed(hc: SkipBody, p: Parser, log: seq<Event>, n: nat, bs: seq<Octet>)
    requires p.errno.OK? && p.state.BodyIdentityEof? && bs != []
    ensures Feed(hc, Run(p, log, n, false), bs) == Run(p, Append(log, Data(BodyData, bs)), n + |bs|, false)
    decreases |bs|
  {
    hide Append, NewMessage;
    var d := Data(BodyData, [bs[0]]);
    AppendOne(log, d);
    assert [bs[0]] + bs[1..] == bs;
    if |bs| > 1 {
      EofBulkIsFeed(hc, p, Append(log, d), n + 1, bs[1..]);
      AppendData(log, BodyData, [bs[0]], bs[1..]);
    } else {
      assert bs[1..] == [] && bs == [bs[0]];
    }
  }
}
