/** Cutting the input: a caller that stops at an error or an upgrade gets the same result however
    the bytes are divided among calls. */
module HttpSplit {
  import opened Common
  import opened HttpTypes
  import opened HttpStep
  import opened HttpRun

  /** Where the count of consumed bytes starts does not matter. */
  lemma {:induction false} FeedOffset(hc: SkipBody, r: Run, n: nat, bytes: seq<Octet>)
    ensures Feed(hc, r.(consumed := r.consumed + n), bytes) ==
            var s := Feed(hc, r, bytes); s.(consumed := s.consumed + n)
    decreases |bytes|
  {
    hide Turn;
    if bytes != [] && !Halted(r) {
      FeedOffset(hc, Advance(hc, r, bytes[0]), n, bytes[1..]);
    }
  }

  /** Successive calls of http_parser_execute, up to an error or an upgrade. */
  function Calls(hc: SkipBody, r: Run, chunks: seq<seq<Octet>>): Run
    decreases |chunks|
  {
    if chunks == [] || Halted(r) then r
    else
      var s := Feed(hc, Run(r.p, r.log, 0, false), chunks[0]);
      Calls(hc, s.(consumed := r.consumed + s.consumed), chunks[1..])
  }

  lemma {:induction false} CallsIsFeed(hc: SkipBody, r: Run, chunks: seq<seq<Octet>>)
    ensures Calls(hc, r, chunks) == Feed(hc, r, Concat(chunks))
    decreases |chunks|
  {
    hide Turn, Advance;
    if chunks != [] && !Halted(r) {
      var s := Feed(hc, Run(r.p, r.log, 0, false), chunks[0]);
      FeedOffset(hc, Run(r.p, r.log, 0, false), r.consumed, chunks[0]);
      CallsIsFeed(hc, s.(consumed := r.consumed + s.consumed), chunks[1..]);
      FeedSplit(hc, r, chunks[0], Concat(chunks[1..]));
    }
  }

  /** Split invariance: two divisions of the same bytes end in the same record and errno, with the
      same number of bytes consumed and the same log. */
  lemma SplitInvariance(hc: SkipBody, r: Run, chunks: seq<seq<Octet>>, chunks': seq<seq<Octet>>)
    requires Concat(chunks) == Concat(chunks')
    ensures Calls(hc, r, chunks) == Calls(hc, r, chunks')
  {
    CallsIsFeed(hc, r, chunks);
    CallsIsFeed(hc, r, chunks');
  }

  /** A caller that goes on after an upgrade gets a different result from two calls than from one,
      whatever it passes; and it is the only way the two can differ. */
  lemma SplitWithoutStopping(hc: SkipBody, p: Parser, log: seq<Event>, a: seq<Octet>, b: seq<Octet>)
    requires Inv(p) && !p.upgrade
    ensures var r := Run(p, log, 0, false);
            var first := Feed(hc, r, a);
            var second := Feed(hc, first.(stopped := false), b);
            var whole := Feed(hc, r, a + b);
            (second.p == whole.p && second.consumed == whole.consumed) <==> (!first.stopped || b == [])
  {
    hide Turn, Advance, Inv;
    var r := Run(p, log, 0, false);
    FeedSplit(hc, r, a, b);
    FeedKeeps(hc, r, a);
    var first := Feed(hc, r, a);
    if first.stopped && b != [] {
      Progress(hc, first.(stopped := false), b);
    }
  }

  /** A call on a healthy parser consumes a byte or sets errno. */
  lemma {:induction false} Progress(hc: SkipBody, r: Run, bytes: seq<Octet>)
    requires bytes != [] && !Halted(r)
    ensures var s := Feed(hc, r, bytes); s.consumed > r.consumed || !s.p.errno.OK?
  {
    hide Turn;
    FeedCounts(hc, Advance(hc, r, bytes[0]), bytes[1..]);
  }

  lemma {:induction false} FeedCounts(hc: SkipBody, r: Run, bytes: seq<Octet>)
    ensures Feed(hc, r, bytes).consumed >= r.consumed
    ensures Halted(r) ==> Feed(hc, r, bytes) == r
    decreases |bytes|
  {
    hide Turn;
    if bytes != [] && !Halted(r) {
      FeedCounts(hc, Advance(hc, r, bytes[0]), bytes[1..]);
    }
  }

  lemma {:induction false} ConcatRest(chunks: seq<seq<Octet>>, i: nat)
    requires i <= |chunks|
    ensures Concat(chunks) == Concat(chunks[..i]) + Concat(chunks[i..])
  {
    if i == 0 {
      assert chunks[..0] == [] && chunks[0..] == chunks;
    } else {
      ConcatRest(chunks[1..], i - 1);
      assert chunks[..i][1..] == chunks[1..][..i - 1] && chunks[1..][i - 1..] == chunks[i..];
      assert chunks[..i][0] == chunks[0];
      assert chunks[0] + (Concat(chunks[1..][..i - 1]) + Concat(chunks[i..])) ==
             chunks[0] + Concat(chunks[1..][..i - 1]) + Concat(chunks[i..]);
    }
  }
}
