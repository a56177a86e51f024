/** What the offsets recorded by the parser mean: every slice is in range, made of its own kind of
    characters, and the slices follow each other in the order of the message without overlapping. */
module HttpRecorded {
  import opened HttpSyntax
  import opened HttpMachine
  import opened HttpChunks

  ghost predicate SliceIn(d: string, f: Field, k: CharClass) {
    f.End() <= |d| && forall x :: f.start <= x < f.End() ==> InClass(d[x], k)
  }

  predicate After(r: Request, s: State) {
    Rank(r.state) < Rank(s)
  }

  /** The key and the value of a header, found inside `d[lo..hi]`. */
  ghost predicate HeaderIn(d: string, h: Header, lo: nat, hi: nat) {
    && SliceIn(d, h.key, KeySymbol) && SliceIn(d, h.value, NotBreak)
    && lo <= h.key.start && h.key.End() < h.value.start && h.value.End() <= hi
    && h.value.length > 0
  }

  ghost predicate HeadersIn(d: string, hs: seq<Header>, lo: nat, hi: nat) {
    && (forall i :: 0 <= i < |hs| ==> HeaderIn(d, hs[i], lo, hi))
    && (forall i, j :: 0 <= i < j < |hs| ==> hs[i].value.End() < hs[j].key.start)
  }

  function KeyLimit(r: Request): nat {
    match r.state
    case HeaderSpace => r.curKey.start
    case HeaderValue => r.curKey.start
    case _ => r.cur
  }

  ghost predicate RequestLine(d: string, r: Request) {
    && (r.state == Method ==> r.cur == 0)
    && (r.state == SpaceAfterMethod ==> r.cur < |d| && d[r.cur] == ' ')
    && (r.state == UrlParameters ==> r.cur == r.url.End())
    && (After(r, Method) ==>
          SliceIn(d, r.meth, MethodSymbol) && r.meth.start == 0 && r.meth.End() <= r.cur)
    && (After(r, SpaceAfterMethod) ==> r.meth.End() < r.cur)
    && (After(r, Url) ==>
          SliceIn(d, r.url, UrlSymbol) && r.meth.End() < r.url.start && r.url.End() <= r.cur)
    && (After(r, UrlParameters) && r.urlParameters.length > 0 ==>
          SliceIn(d, r.urlParameters, NotBlank) && r.url.End() == r.urlParameters.start
          && r.urlParameters.End() <= r.cur)
    && (!After(r, UrlParameters) ==> r.urlParameters.length == 0)
  }

  ghost predicate Headers(d: string, r: Request) {
    && HeadersIn(d, r.headers, r.url.End() + r.urlParameters.length, KeyLimit(r))
    && (!After(r, SpaceAfterUrl) ==> r.headers == [])
    && (r.state == HeaderKey ==>
          forall i :: 0 <= i < |r.headers| ==> r.headers[i].value.End() < r.cur)
    && (After(r, SpaceAfterUrl) ==> r.url.End() + r.urlParameters.length <= r.cur)
    && (r.state == HeaderSpace || r.state == HeaderValue ==>
          && SliceIn(d, r.curKey, KeySymbol)
          && r.url.End() + r.urlParameters.length <= r.curKey.start
          && (forall i :: 0 <= i < |r.headers| ==> r.headers[i].value.End() < r.curKey.start))
    && (r.state == HeaderSpace ==> r.curKey.End() <= r.cur)
    && (r.state == HeaderValue ==>
          r.curKey.End() < r.cur < |d| && !IsBreak(d[r.cur]))
  }

  /** After `finishOk` the content lies behind the headers and inside the received bytes. */
  ghost predicate Body(d: string, r: Request) {
    r.state == Finish && r.contentLength > 0 ==>
      && r.contentStart + r.contentLength <= |d|
      && (forall i :: 0 <= i < |r.headers| ==> r.headers[i].value.End() <= r.contentStart)
  }

  ghost predicate Recorded(d: string, r: Request) {
    WellFormed(d, r) && r.state != Invalid && RequestLine(d, r) && Headers(d, r) && Body(d, r)
  }

  lemma SpanIsSlice(d: string, i: nat, k: CharClass)
    requires i <= |d|
    ensures SliceIn(d, Field(i, Span(d, i, k) - i), k)
    ensures i < |d| && InClass(d[i], k) ==> i < Span(d, i, k)
  {
    hide InClass;
  }

  lemma MethodStep(d: string, r: Request)
    requires WellFormed(d, r) && r.state == Method
    requires Step(d, r).Next? || Step(d, r).result != FinishInvalid
    ensures var j := Span(d, r.cur, MethodSymbol);
            if j == |d| then Step(d, r).request == r
            else d[j] == ' '
                 && Step(d, r).request
                    == r.(meth := Field(r.cur, j - r.cur), cur := j, state := SpaceAfterMethod)
  {
    hide MatchesName, Atoi, LineFeeds, Run, Span;
  }

  lemma MethodRecorded(d: string, r: Request)
    requires WellFormed(d, r) && RequestLine(d, r) && r.state == Method
    requires Step(d, r).Next? || Step(d, r).result != FinishInvalid
    ensures RequestLine(d, Step(d, r).request)
  {
    hide Run, Step, Span, SliceIn;
    MethodStep(d, r);
    SpanIsSlice(d, r.cur, MethodSymbol);
  }

  lemma AfterMethodRecorded(d: string, r: Request)
    requires WellFormed(d, r) && RequestLine(d, r) && r.state == SpaceAfterMethod
    requires Step(d, r).Next? || Step(d, r).result != FinishInvalid
    ensures RequestLine(d, Step(d, r).request)
  {
    hide MatchesName, Atoi, LineFeeds, Run, Span, SliceIn;
    SpanIsSlice(d, r.cur, Blank);
  }

  lemma UrlRecorded(d: string, r: Request)
    requires WellFormed(d, r) && RequestLine(d, r) && (r.state == Url || r.state == UrlParameters)
    requires Step(d, r).Next? || Step(d, r).result != FinishInvalid
    ensures RequestLine(d, Step(d, r).request)
  {
    hide MatchesName, Atoi, LineFeeds, Run;
    StepBounds(d, r);
  }

  lemma RequestLineKept(d: string, r: Request)
    requires WellFormed(d, r) && RequestLine(d, r) && After(r, UrlParameters)
    requires Step(d, r).Next? || Step(d, r).result != FinishInvalid
    ensures RequestLine(d, Step(d, r).request)
  {
    hide Run, Atoi, MatchesName, LineFeeds, SliceIn, InClass, Span;
    StepBounds(d, r);
    var r' := Step(d, r).request;
    assert r'.meth == r.meth && r'.url == r.url && r'.urlParameters == r.urlParameters;
  }

  lemma NoHeadersYet(d: string, r: Request)
    requires Recorded(d, r) && !After(r, UrlParameters)
    requires Step(d, r).Next? || Step(d, r).result != FinishInvalid
    ensures Headers(d, Step(d, r).request) && Body(d, Step(d, r).request)
  {
    hide Run, Atoi, MatchesName, LineFeeds, SliceIn, Span, InClass, HeaderIn;
    var r' := Step(d, r).request;
    assert !After(r', SpaceAfterUrl) && r'.headers == [];
  }

  lemma FirstLineRecorded(d: string, r: Request)
    requires Recorded(d, r) && r.state == SpaceAfterUrl
    requires Step(d, r).Next? || Step(d, r).result != FinishInvalid
    ensures Headers(d, Step(d, r).request) && Body(d, Step(d, r).request)
  {
    hide MatchesName, Atoi, Run;
    StepBounds(d, r);
  }

  lemma KeyRecorded(d: string, r: Request)
    requires Recorded(d, r) && r.state == HeaderKey
    requires Step(d, r).Next? || Step(d, r).result != FinishInvalid
    ensures Headers(d, Step(d, r).request) && Body(d, Step(d, r).request)
  {
    hide MatchesName, Atoi, Run;
    StepBounds(d, r);
  }

  lemma SeparatorStep(d: string, r: Request)
    requires WellFormed(d, r) && r.state == HeaderSpace
    requires Step(d, r).Next? || Step(d, r).result != FinishInvalid
    ensures var j := Span(d, r.cur, Separator);
            if j == |d| then Step(d, r).request == r
            else !IsBreak(d[j]) && Step(d, r).request == r.(cur := j, state := HeaderValue)
  {
    hide MatchesName, Atoi, LineFeeds, Run, Span;
  }

  lemma SpaceRecorded(d: string, r: Request)
    requires Recorded(d, r) && r.state == HeaderSpace
    requires Step(d, r).Next? || Step(d, r).result != FinishInvalid
    ensures Headers(d, Step(d, r).request) && Body(d, Step(d, r).request)
  {
    hide SliceIn, HeadersIn, Step, Run, RequestLine, Span;
    SeparatorStep(d, r);
    assert InClass(d[r.cur], Separator);
    SpanIsSlice(d, r.cur, Separator);
  }

  lemma HeadersAppend(d: string, hs: seq<Header>, h: Header, lo: nat, mid: nat, hi: nat)
    requires HeadersIn(d, hs, lo, mid) && HeaderIn(d, h, lo, hi) && mid <= hi
    requires forall i :: 0 <= i < |hs| ==> hs[i].value.End() < h.key.start
    ensures HeadersIn(d, hs + [h], lo, hi)
  {
    hide Step, Run;
  }

  lemma StoredHeaders(d: string, r: Request, j: nat)
    requires Recorded(d, r) && r.state == HeaderValue && j == Span(d, r.cur, NotBreak) < |d|
    ensures HeadersIn(d, r.headers + [Header(r.curKey, Field(r.cur, j - r.cur))],
                      r.url.End() + r.urlParameters.length, j)
  {
    hide Step, Run, RequestLine, HeadersIn;
    var h := Header(r.curKey, Field(r.cur, j - r.cur));
    assert InClass(d[r.cur], NotBreak);
    HeadersAppend(d, r.headers, h, r.url.End() + r.urlParameters.length, KeyLimit(r), j);
  }

  lemma ValueStored(d: string, r: Request, j: nat)
    requires WellFormed(d, r) && r.state == HeaderValue && j == Span(d, r.cur, NotBreak) < |d|
    ensures var r' := Step(d, r).request;
            && r'.headers == r.headers + [Header(r.curKey, Field(r.cur, j - r.cur))]
            && r'.url == r.url && r'.urlParameters == r.urlParameters
            && (Step(d, r).Next? ==> r'.cur == j && r'.state == HeaderLineBreak)
            && (Step(d, r).Stop? ==> Step(d, r).result == FinishInvalid)
  {
    hide Atoi, MatchesName, LineFeeds, InClass, Run;
  }

  lemma ValueWaits(d: string, r: Request)
    requires WellFormed(d, r) && r.state == HeaderValue && Span(d, r.cur, NotBreak) == |d|
    ensures Step(d, r).request == r
  {
    hide Atoi, MatchesName, LineFeeds, Run, Span;
  }

  lemma ValueRecorded(d: string, r: Request)
    requires Recorded(d, r) && r.state == HeaderValue
    requires Step(d, r).Next? || Step(d, r).result != FinishInvalid
    ensures Headers(d, Step(d, r).request) && Body(d, Step(d, r).request)
  {
    hide Step, Atoi, MatchesName, Run, SliceIn, LineFeeds;
    var j := Span(d, r.cur, NotBreak);
    if j < |d| {
      StoredHeaders(d, r, j);
      ValueStored(d, r, j);
    } else {
      ValueWaits(d, r);
    }
  }

  lemma LineBreakStep(d: string, r: Request)
    requires WellFormed(d, r) && r.state == HeaderLineBreak
    ensures var r' := Step(d, r).request;
            && r' == r.(cur := r'.cur, state := r'.state) && r.cur <= r'.cur <= |d|
            && (r'.state == HeaderKey ==> r.cur < r'.cur)
            && r'.state in {HeaderKey, HeaderLineBreak, Content, Finish}
            && (r'.state == Finish ==> r.contentLength == 0)
  {
    hide MatchesName, Atoi, LineFeeds, Run;
  }

  lemma LineBreakRecorded(d: string, r: Request)
    requires Recorded(d, r) && r.state == HeaderLineBreak
    requires Step(d, r).Next? || Step(d, r).result != FinishInvalid
    ensures Headers(d, Step(d, r).request) && Body(d, Step(d, r).request)
  {
    hide Step, Run, SliceIn;
    LineBreakStep(d, r);
  }

  lemma BodyRecorded(d: string, r: Request)
    requires Recorded(d, r) && (r.state == Content || r.state == Finish)
    requires Step(d, r).Next? || Step(d, r).result != FinishInvalid
    ensures Headers(d, Step(d, r).request) && Body(d, Step(d, r).request)
  {
    hide MatchesName, Atoi, Run;
    StepBounds(d, r);
  }

  lemma RequestLineStep(d: string, r: Request)
    requires WellFormed(d, r) && RequestLine(d, r) && r.state != Invalid
    requires Step(d, r).Next? || Step(d, r).result != FinishInvalid
    ensures RequestLine(d, Step(d, r).request)
  {
    hide Step, Run;
    if r.state == Method {
      MethodRecorded(d, r);
    } else if r.state == SpaceAfterMethod {
      AfterMethodRecorded(d, r);
    } else if r.state == Url || r.state == UrlParameters {
      UrlRecorded(d, r);
    } else {
      RequestLineKept(d, r);
    }
  }

  lemma HeadersStep(d: string, r: Request)
    requires Recorded(d, r)
    requires Step(d, r).Next? || Step(d, r).result != FinishInvalid
    ensures Headers(d, Step(d, r).request) && Body(d, Step(d, r).request)
  {
    hide Step, Run;
    match r.state
    case SpaceAfterUrl => FirstLineRecorded(d, r);
    case HeaderKey => KeyRecorded(d, r);
    case HeaderSpace => SpaceRecorded(d, r);
    case HeaderValue => ValueRecorded(d, r);
    case HeaderLineBreak => LineBreakRecorded(d, r);
    case Content => BodyRecorded(d, r);
    case Finish => BodyRecorded(d, r);
    case _ => NoHeadersYet(d, r);
  }

  lemma StaysValid(d: string, r: Request)
    requires WellFormed(d, r) && r.state != Invalid
    ensures Step(d, r).request.state != Invalid
  {
  }

  lemma StepRecorded(d: string, r: Request)
    requires Recorded(d, r)
    requires Step(d, r).Next? || Step(d, r).result != FinishInvalid
    ensures Recorded(d, Step(d, r).request)
  {
    hide Step, Run;
    StepKeepsKnowledge(d, r);
    StaysValid(d, r);
    RequestLineStep(d, r);
    HeadersStep(d, r);
  }

  /** However the bytes arrived, every answer but finishInvalid leaves correctly recorded slices. */
  lemma {:induction false} RunRecorded(d: string, r: Request)
    requires Recorded(d, r)
    ensures Run(d, r).Returned? && Run(d, r).result != FinishInvalid ==> Recorded(d, Run(d, r).request)
    decreases |d| - r.cur, Rank(r.state)
  {
    hide Step;
    StepProgress(d, r);
    if Step(d, r).Next? || Step(d, r).result != FinishInvalid {
      StepRecorded(d, r);
      if Step(d, r).Next? && Step(d, r).request != r {
        RunRecorded(d, Step(d, r).request);
      }
    }
  }

  lemma SliceExtend(d: string, e: string, f: Field, k: CharClass)
    requires d <= e
    ensures SliceIn(d, f, k) ==> SliceIn(e, f, k)
  {
    hide Step, Run, InClass;
  }

  lemma FirstLineExtend(d: string, e: string, r: Request)
    requires RequestLine(d, r) && d <= e
    ensures RequestLine(e, r)
  {
    hide Step, Run, SliceIn, InClass;
    SliceExtend(d, e, r.meth, MethodSymbol);
    SliceExtend(d, e, r.url, UrlSymbol);
    SliceExtend(d, e, r.urlParameters, NotBlank);
  }

  lemma HeadersInExtend(d: string, e: string, hs: seq<Header>, lo: nat, hi: nat)
    requires HeadersIn(d, hs, lo, hi) && d <= e
    ensures HeadersIn(e, hs, lo, hi)
  {
    hide Step, Run, SliceIn, InClass;
    forall i | 0 <= i < |hs|
      ensures HeaderIn(e, hs[i], lo, hi)
    {
      assert HeaderIn(d, hs[i], lo, hi);
      SliceExtend(d, e, hs[i].key, KeySymbol);
      SliceExtend(d, e, hs[i].value, NotBreak);
    }
  }

  lemma HeadersExtend(d: string, e: string, r: Request)
    requires Headers(d, r) && d <= e
    ensures Headers(e, r)
  {
    hide Step, Run, SliceIn, InClass, HeadersIn;
    HeadersInExtend(d, e, r.headers, r.url.End() + r.urlParameters.length, KeyLimit(r));
    SliceExtend(d, e, r.curKey, KeySymbol);
  }

  /** More bytes do not disturb what is recorded. */
  lemma RecordedExtend(d: string, e: string, r: Request)
    requires Recorded(d, r) && d <= e
    ensures Recorded(e, r)
  {
    hide Step, Run, RequestLine, Headers;
    FirstLineExtend(d, e, r);
    HeadersExtend(d, e, r);
  }

  lemma FreshRecorded(d: string, r: Request)
    requires WellFormed(d, r) && r.state == Method && r.cur == 0 && |r.headers| == 0 && r.urlParameters.length == 0
    ensures Recorded(d, r)
  {
    hide Run, Step, SliceIn;
  }

  lemma InitialRecorded(d: string, r: Request)
    requires r == Initial()
    ensures WellFormed(d, r) && Recorded(d, r)
  {
    hide Run, Step, Recorded, WellFormed;
    InitialFits(d);
    FreshRecorded(d, r);
  }

  /** However the bytes arrived: as long as the request is not refused, everything recorded so far is in
      order with respect to everything received so far. */
  lemma {:induction false} FeedRecorded(chunks: seq<string>)
    requires chunks != [] && Growing(chunks)
    ensures Feed(chunks).Returned? && Feed(chunks).result != FinishInvalid ==>
              Recorded(Last(chunks), Feed(chunks).request)
  {
    hide Step, Run, Recorded, WellFormed;
    var d := Last(chunks);
    if |chunks| == 1 {
      InitialRecorded(d, Initial());
      RunRecorded(d, Initial());
    } else {
      var before := chunks[..|chunks| - 1];
      assert Last(before) <= d;
      if Feed(before).Returned? {
        if Feed(before).result == FinishInvalid {
          FeedInvalid(before, d);
        } else {
          FeedRecorded(before);
          RecordedExtend(Last(before), d, Feed(before).request);
          RunRecorded(d, Feed(before).request);
        }
      }
    }
  }

  /** What a refused parse leaves: everything recorded is still in order, or it is but for the last header, the one
      with a body length of too many characters, which is in order itself. */
  ghost predicate RecordedBefore(d: string, r: Request) {
    || Recorded(d, r)
    || (r.headers != [] && Recorded(d, r.(headers := r.headers[..|r.headers| - 1]))
        && HeadersIn(d, r.headers, r.url.End() + r.urlParameters.length, |d|))
  }

  lemma StepRefused(d: string, r: Request)
    requires Recorded(d, r) && Step(d, r).Stop? && Step(d, r).result == FinishInvalid
    ensures RecordedBefore(d, Step(d, r).request)
  {
    hide Recorded, HeadersIn, Atoi, MatchesName;
    if r.state == HeaderValue {
      RecordedFits(d, r);
      var j := Span(d, r.cur, NotBreak);
      StoredHeaders(d, r, j);
      HeadersWiden(d, r.headers + [Header(r.curKey, Field(r.cur, j - r.cur))], r.url.End() + r.urlParameters.length, j);
      var r1 := Step(d, r).request;
      assert r1.headers[..|r1.headers| - 1] == r.headers;
      assert r1.(headers := r.headers) == r;
    } else {
      RefusalKeeps(d, r);
    }
  }

  lemma RecordedFits(d: string, r: Request)
    requires Recorded(d, r)
    ensures WellFormed(d, r)
  {
  }

  lemma HeadersWiden(d: string, hs: seq<Header>, lo: nat, hi: nat)
    requires HeadersIn(d, hs, lo, hi) && hi <= |d|
    ensures HeadersIn(d, hs, lo, |d|)
  {
  }

  lemma RefusalKeeps(d: string, r: Request)
    requires Recorded(d, r) && r.state != HeaderValue && Step(d, r).Stop? && Step(d, r).result == FinishInvalid
    ensures Step(d, r).request == r
  {
    hide SliceIn, HeadersIn, Atoi, MatchesName, LineFeeds;
  }

  /** The same when the run is refused. */
  lemma {:induction false} RunRefused(d: string, r: Request)
    requires Recorded(d, r)
    ensures Run(d, r).Returned? && Run(d, r).result == FinishInvalid ==> RecordedBefore(d, Run(d, r).request)
    decreases |d| - r.cur, Rank(r.state)
  {
    hide Step, Recorded, RecordedBefore;
    RecordedFits(d, r);
    StepProgress(d, r);
    if Step(d, r).Next? && Step(d, r).request != r {
      StepRecorded(d, r);
      RunRefused(d, Step(d, r).request);
    } else if Step(d, r).Stop? && Step(d, r).result == FinishInvalid {
      StepRefused(d, r);
    }
  }

  /** And when a call is refused that comes after calls that were not. */
  lemma FeedRefused(before: seq<string>, e: string)
    requires before != [] && Growing(before) && Last(before) <= e
    requires Feed(before).Returned? && Feed(before).result != FinishInvalid
    ensures WellFormed(e, Feed(before).request)
    ensures var o := Run(e, Feed(before).request);
            o.Returned? && o.result == FinishInvalid ==> RecordedBefore(e, o.request)
  {
    hide Step, Run, Recorded, RecordedBefore, Feed;
    FeedRecorded(before);
    RecordedExtend(Last(before), e, Feed(before).request);
    RecordedFits(e, Feed(before).request);
    RunRefused(e, Feed(before).request);
  }
}
