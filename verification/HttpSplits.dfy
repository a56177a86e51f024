/** Where the chunks of a request part decides what is parsed: the messages for which it matters. */
module HttpSplits {
  import opened HttpSyntax
  import opened HttpMachine
  import opened HttpChunks
  import HttpNames
  import HttpRecorded
  import HttpRender

  // ---- Messages that no split harms ----

  lemma {:induction false} FeedsWithin(d: string, b: nat, i: nat, j: nat)
    requires b <= i <= j <= |d|
    ensures LineFeeds(d, i, j) <= LineFeeds(d, b, j)
    decreases j
  {
    if i < j {
      FeedsWithin(d, b, i, j - 1);
    }
  }

  /** A shorter part of the blank line has only one line feed. */
  lemma OneFeed(d: string, b: nat, h: nat, i: nat, j: nat)
    requires HttpRender.TightlyBefore(d, b, h) && b <= i <= j < h
    ensures LineFeeds(d, i, j) <= 1
  {
    FeedsWithin(d, b, i, j);
    LineFeedsExtend(d, d, b, j, h - 1);
  }

  lemma BlankLineReached(p: string, t: string, b: nat, h: nat, i: nat)
    requires p <= t && HttpRender.TightlyBefore(t, b, h) && b <= i <= |p| && Span(t, i, Break) == h
    requires LineFeeds(p, i, Span(p, i, Break)) > 1
    ensures |p| >= h && Span(p, i, Break) == h
  {
    hide HttpRender.TightlyBefore;
    var j := Span(p, i, Break);
    SpanMonotone(p, t, i, Break);
    LineFeedsExtend(p, t, i, j, j);
    if j < h {
      OneFeed(t, b, h, i, j);
    }
  }

  /** A run of line breaks that ends in front of the body begins in the blank line. */
  lemma BlankLineStart(t: string, b: nat, h: nat, i: nat)
    requires HttpRender.BlankLineBefore(t, b, h) && i <= h && Span(t, i, Break) == h
    ensures b <= i
  {
  }

  lemma BlankLineSpan(t: string, b: nat, h: nat)
    requires HttpRender.BlankLineBefore(t, b, h) && (h < |t| ==> !IsBreak(t[h]))
    ensures Span(t, b, Break) == h
  {
    if h < |t| {
      SpanIs(t, b, Break, h);
    } else {
      HttpRender.SpanAll(t, b, Break);
    }
  }

  /** The parse of an understood message in one go, and where its headers end. */
  lemma WholeParse(m: HttpRender.Message)
    requires HttpRender.ValidMessage(m) && HttpRender.Complete(m) && HttpRender.Understood(m)
    ensures var t, o := HttpRender.Render(m), Run(HttpRender.Render(m), Initial());
            var h, e := |t| - |m.body|, |HttpRender.HeadEnd(m.headers, m.blank)|;
            && e <= h && HttpRender.BlankLineBefore(t, h - e, h) && (h < |t| ==> !IsBreak(t[h]))
            && (HttpRender.Tight(m) ==> HttpRender.TightlyBefore(t, h - e, h))
            && o.Returned? && o.result == FinishOk && o.request.contentLength == |m.body|
            && (if m.body == "" then o.request.cur == h - e else o.request.contentStart == h)
  {
    hide Run, Step, HttpRender.Render, HttpRender.ValidMessage, HttpRender.LeadingBreaks, HttpNames.AnyTooLong,
         HttpNames.AnnouncedLength, HttpNames.RfcLength, HttpNames.Misled, HttpRender.AfterRequestLine, Initial,
         HttpRender.Fields, HttpRender.BlankLineBefore, HttpRender.TightlyBefore, HttpRender.Tight, HttpRender.HeadEnd;
    HttpRender.HeadEnds(m);
    HttpRender.ParseEnds(m);
    HttpNames.AnnouncedExactly(m.headers);
    HttpRender.NoLeadingBreak(m.body);
    HttpRender.HeaderParts(m);
    var t := HttpRender.Render(m);
    assert m.body != "" ==> t[|t| - |m.body|..][0] == m.body[0];
  }

  /** A part of an understood message in which the parser comes past the headers has all of them. */
  lemma HeadReached(m: HttpRender.Message, p: string) returns (i: nat)
    requires HttpRender.ValidMessage(m) && HttpRender.Complete(m) && HttpRender.Understood(m) && HttpRender.Tight(m)
    requires p <= HttpRender.Render(m) && Run(p, Initial()).Returned?
    requires Run(p, Initial()).request.state == Content || Run(p, Initial()).request.state == Finish
    ensures var h := |HttpRender.Render(m)| - |m.body|;
            && 0 <= h <= |p| && Run(p, Initial()).request.contentLength == |m.body|
            && (m.body != "" ==> Run(p, Initial()).request.cur == h)
  {
    hide Run, Step, Span, LineFeeds, HttpRender.Render, HttpRender.ValidMessage, HttpRender.Complete, Initial,
         HttpRender.Understood, HttpRender.BlankLineBefore, HttpRender.TightlyBefore, HttpRender.Tight,
         HttpRender.HeadEnd;
    var t := HttpRender.Render(m);
    var h := |t| - |m.body|;
    InitialFits(p);
    InitialFits(t);
    WholeParse(m);
    var b := h - |HttpRender.HeadEnd(m.headers, m.blank)|;
    i := HeadersEndAt(p, t, Initial());
    if m.body == "" {
      BlankLineSpan(t, b, h);
    } else {
      BlankLineStart(t, b, h, i);
    }
    BlankLineReached(p, t, b, h, i);
  }

  /** No two reads of an understood message split the line breaks around the blank line. */
  lemma UnderstoodIsNotSplit(m: HttpRender.Message, d: string, e: string)
    requires HttpRender.ValidMessage(m) && HttpRender.Complete(m) && HttpRender.Understood(m) && HttpRender.Tight(m)
    requires d <= e <= HttpRender.Render(m)
    ensures !SplitsBreaks(d, e)
  {
    hide Run, Step, HttpRender.Render, HttpRender.ValidMessage, HttpRender.Complete, Initial,
         HttpRender.Understood, HttpRender.BlankLineBefore, HttpRender.Tight;
    if SplitsBreaks(d, e) {
      var i := HeadReached(m, d);
      assert e[|d|] == HttpRender.Render(m)[|d|];
      WholeParse(m);
      assert false;
    }
  }

  /** The parser waits for the rest of an understood message, unless the part that is there ends inside the query
      string. */
  lemma PartWaits(m: HttpRender.Message, p: string)
    requires HttpRender.ValidMessage(m) && HttpRender.Complete(m) && HttpRender.Understood(m) && HttpRender.Tight(m)
    requires p < HttpRender.Render(m) && !EndsInQuery(p)
    ensures Run(p, Initial()).Returned? && Run(p, Initial()).result == NeedMoreData
  {
    hide Run, Step, HttpRender.Render, HttpRender.ValidMessage, HttpRender.Complete, Initial, HttpRecorded.Recorded,
         HttpRender.Understood, HttpRender.BlankLineBefore, HttpRender.Tight, EndsInQuery;
    InitialFits(p);
    var t, o := HttpRender.Render(m), Run(p, Initial());
    InitialFits(t);
    RunKeeps(p, Initial());
    HangsExactlyInQuery(p);
    WholeParse(m);
    RunExtend(p, t, Initial());
    UnderstoodIsNotSplit(m, p, t);
    FinishMeansFinished(p, Initial());
    if o.result == FinishOk {
      var i := HeadReached(m, p);
      HttpRecorded.InitialRecorded(p, Initial());
      HttpRecorded.RunRecorded(p, Initial());
      BodyFits(p, o.request);
      assert false;
    }
  }

  lemma BodyFits(d: string, r: Request)
    requires HttpRecorded.Recorded(d, r) && r.state == Finish && r.contentLength > 0
    ensures r.contentStart + r.contentLength <= |d|
  {
  }

  // ---- Messages that a split changes ----

  lemma FeedTwo(d: string, e: string)
    requires d <= e && Run(d, Initial()).Returned?
    ensures Growing([d]) && Growing([d, e]) && WellFormed(e, Run(d, Initial()).request)
    ensures Feed([d, e]) == Run(e, Run(d, Initial()).request)
  {
    hide Run, Step, WellFormed, Initial;
    var chunks := [d, e];
    assert chunks[..|chunks| - 1] == [d];
    InitialFits(d);
    RunKeeps(d, Initial());
    WellFormedExtend(d, e, Run(d, Initial()).request);
  }

  /** A body that starts with a line break is parsed as it was sent if the first chunk ends in front of it, and
      never if everything arrives at once. */
  lemma ChunksMatter(m: HttpRender.Message)
    requires HttpRender.ValidMessage(m) && HttpRender.Complete(m) && HttpRender.HeadersUnderstood(m.headers)
    requires HttpRender.StartsWithBreak(m.body)
    ensures var d, e := HttpRender.Head(m), HttpRender.Render(m);
            && Growing([d, e]) && SplitsBreaks(d, e)
            && Feed([d, e]) == Returned(FinishOk, Run(d, Initial()).request.(contentStart := |d|, state := Finish))
            && Feed([d, e]).request.contentLength == |m.body| && d + m.body == e
            && Run(e, Initial()).Returned? && Run(e, Initial()).result == NeedMoreData
  {
    hide Run, HttpRender.Render, HttpRender.Head, Feed, Growing, HttpRender.ValidMessage, HttpRender.Recovers,
         HttpRender.HeadersUnderstood;
    var d, e := HttpRender.Head(m), HttpRender.Render(m);
    HttpRender.HeadIsPrefix(m);
    HttpRender.HeadAwaits(m);
    HttpRender.BreaksWait(m);
    var r := Run(d, Initial()).request;
    RunKeeps(d, Initial());
    WellFormedExtend(d, e, r);
    RunStops(e, r);
    assert e[|d|] == m.body[0];
    FeedTwo(d, e);
  }
}
