/** Chunk independence: feeding the parser longer and longer prefixes of a byte stream against
    parsing the last prefix at once; and the exact inputs on which the parser's loop hangs. */
module HttpChunks {
  import opened HttpSyntax
  import opened HttpMachine

  /** The headers ended exactly at the chunk's edge and the next byte is one more line break:
      the only place where the number of skipped bytes depends on the chunking. */
  predicate BreakAtEdge(d: string, e: string, r: Request) {
    && (r.state == Content || r.state == Finish)
    && r.contentLength != 0
    && r.cur == |d| < |e|
    && IsBreak(e[|d|])
  }

  lemma WellFormedExtend(d: string, e: string, r: Request)
    requires WellFormed(d, r) && d <= e
    ensures WellFormed(e, r)
  {
  }

  lemma ScanExtend(d: string, e: string, i: nat, k: CharClass)
    requires i <= |d| && d <= e
    ensures Span(d, i, k) < |d| ==> Span(e, i, k) == Span(d, i, k)
  {
    if Span(d, i, k) < |d| {
      SpanExtend(d, e, i, k);
    }
  }

  lemma {:induction false} SpanMonotone(d: string, e: string, i: nat, k: CharClass)
    requires i <= |d| && d <= e
    ensures Span(d, i, k) <= Span(e, i, k)
    decreases |d| - i
  {
    if i < |d| && InClass(d[i], k) {
      SpanMonotone(d, e, i + 1, k);
    }
  }

  lemma ValueExtend(d: string, e: string, r: Request)
    requires WellFormed(d, r) && d <= e && WellFormed(e, r)
    requires r.state == HeaderValue
    requires Step(d, r) != Stop(NeedMoreData, r)
    ensures Step(e, r) == Step(d, r)
  {
    hide MatchesName, Atoi, AllIn, LineFeeds;
    ScanExtend(d, e, r.cur, NotBreak);
    assert Slice(e, r.curKey) == Slice(d, r.curKey);
    var n := Span(d, r.cur, NotBreak) - r.cur;
    assert e[r.cur..r.cur + n] == d[r.cur..r.cur + n];
  }

  /** In every state but the two that count line breaks, a scan that does not ask for more bytes
      gives the same answer when more bytes follow. */
  lemma RequestLineExtend(d: string, e: string, r: Request)
    requires WellFormed(d, r) && d <= e && WellFormed(e, r)
    requires r.state == Method || r.state == SpaceAfterMethod || r.state == Url || r.state == UrlParameters
    requires Step(d, r) != Stop(NeedMoreData, r) && !StuckInQuery(d, r)
    ensures Step(e, r) == Step(d, r)
  {
    hide AllIn, MatchesName, Atoi, Span, LineFeeds;
    StuckIsSpan(d, r);
    match r.state
    case Method => ScanExtend(d, e, r.cur, MethodSymbol);
    case SpaceAfterMethod => ScanExtend(d, e, r.cur, Blank);
    case Url => ScanExtend(d, e, r.cur, UrlSymbol);
    case UrlParameters => ScanExtend(d, e, r.cur, NotBlank);
  }

  lemma StepExtend(d: string, e: string, r: Request)
    requires WellFormed(d, r) && d <= e && WellFormed(e, r)
    requires r.state != SpaceAfterUrl && r.state != HeaderLineBreak && r.state != Content
    requires Step(d, r) != Stop(NeedMoreData, r) && !StuckInQuery(d, r)
    ensures Step(e, r) == Step(d, r)
  {
    match r.state
    case HeaderKey => ScanExtend(d, e, r.cur, KeySymbol);
    case HeaderSpace => ScanExtend(d, e, r.cur, Separator);
    case HeaderValue => ValueExtend(d, e, r);
    case Finish =>
    case Invalid =>
    case _ => RequestLineExtend(d, e, r);
  }

  lemma BreaksExtend(d: string, e: string, i: nat)
    requires i <= |d| && d <= e
    ensures LineFeeds(d, i, Span(d, i, Break)) <= LineFeeds(e, i, Span(e, i, Break))
    ensures Span(d, i, Break) <= Span(e, i, Break)
    ensures Span(e, i, Break) == Span(d, i, Break) ==>
              LineFeeds(d, i, Span(d, i, Break)) == LineFeeds(e, i, Span(e, i, Break))
    ensures Span(d, i, Break) < |d| ==> Span(e, i, Break) == Span(d, i, Break)
    ensures Span(d, i, Break) == |d| ==>
              (Span(e, i, Break) == |d| <==> |d| == |e| || !IsBreak(e[|d|]))
  {
    ScanExtend(d, e, i, Break);
    SpanMonotone(d, e, i, Break);
    LineFeedsExtend(d, e, i, Span(d, i, Break), Span(e, i, Break));
  }

  lemma StepExtendFirstLine(d: string, e: string, r: Request)
    requires WellFormed(d, r) && d <= e && WellFormed(e, r)
    requires r.state == SpaceAfterUrl
    requires Step(d, r) != Stop(NeedMoreData, r)
    ensures Step(e, r) == Step(d, r)
  {
    ScanExtend(d, e, r.cur, NotBreak);
    BreaksExtend(d, e, Span(d, r.cur, NotBreak));
  }

  lemma StepExtendLineBreak(d: string, e: string, r: Request)
    requires WellFormed(d, r) && d <= e && WellFormed(e, r)
    requires r.state == HeaderLineBreak
    requires Step(d, r) != Stop(NeedMoreData, r)
    ensures var r' := Step(d, r).request;
            if BreakAtEdge(d, e, r') then
              Step(e, r).Next? && Step(e, r).request.state == Content
              && Step(e, r).request.cur > |d| && Step(e, r).request.contentLength == r.contentLength
            else Step(e, r) == Step(d, r)
  {
    BreaksExtend(d, e, r.cur);
  }

  /** What more bytes do to one run of the loop that came back on the bytes `d`. */
  ghost predicate ExtendsTo(d: string, e: string, r: Request)
    requires WellFormed(d, r) && WellFormed(e, r)
    requires Run(d, r).Returned?
  {
    var r1 := Run(d, r).request;
    match Run(d, r).result
    case NeedMoreData => WellFormed(e, r1) && Run(e, r) == Run(e, r1)
    case FinishOk => Run(e, r) == Run(d, r)
    case FinishInvalid => Run(e, r) == Run(d, r)
  }

  lemma OneStepExtend(d: string, e: string, r: Request)
    requires WellFormed(d, r) && d <= e && WellFormed(e, r)
    requires BeforeContent(r.state) && !StuckInQuery(d, r)
    requires Step(d, r) != Stop(NeedMoreData, r)
    ensures WellFormed(e, Step(e, r).request)
    ensures !BreakAtEdge(d, e, Step(d, r).request) ==> Step(e, r) == Step(d, r)
    ensures BreakAtEdge(d, e, Step(d, r).request) ==>
              Step(e, r).Next? && Step(e, r).request.state == Content && Step(e, r).request.cur > |d|
  {
    StepProgress(e, r);
    match r.state {
      case SpaceAfterUrl => StepExtendFirstLine(d, e, r);
      case HeaderLineBreak => StepExtendLineBreak(d, e, r);
      case _ => StepExtend(d, e, r);
    }
  }

  predicate BeforeContent(s: State) {
    s != Content && s != Finish && s != Invalid
  }

  lemma ContentRuns(d: string, r: Request)
    requires WellFormed(d, r) && r.state == Content
    ensures Run(d, r) == if |d| - r.cur >= r.contentLength
                         then Returned(FinishOk, r.(contentStart := r.cur, state := Finish))
                         else Returned(NeedMoreData, r)
  {
    hide Run;
    RunStops(d, r);
  }

  lemma StepShape(d: string, r: Request)
    requires WellFormed(d, r) && BeforeContent(r.state)
    ensures Step(d, r).Next? ==> BeforeContent(Step(d, r).request.state) || Step(d, r).request.state == Content
    ensures Step(d, r).Stop? ==> BeforeContent(Step(d, r).request.state) || Step(d, r).request.contentLength == 0
    ensures Step(d, r).Stop? && Step(d, r).result == NeedMoreData ==> Step(d, r).request == r
  {
  }

  lemma {:induction false} RunExtend(d: string, e: string, r: Request)
    requires WellFormed(d, r) && d <= e && WellFormed(e, r)
    requires BeforeContent(r.state)
    requires Run(d, r).Returned?
    ensures WellFormed(d, Run(d, r).request)
    ensures !BreakAtEdge(d, e, Run(d, r).request) ==> ExtendsTo(d, e, r)
    ensures BreakAtEdge(d, e, Run(d, r).request) ==>
              Run(e, r).Returned? && Run(e, r).request.cur > |d| && Run(e, r).result != FinishInvalid
    decreases |d| - r.cur, Rank(r.state)
  {
    hide Step;
    StepProgress(d, r);
    StepShape(d, r);
    if Step(d, r) != Stop(NeedMoreData, r) {
      OneStepExtend(d, e, r);
      StepProgress(e, r);
      if Step(d, r).Next? {
        var r' := Step(d, r).request;
        WellFormedExtend(d, e, r');
        if r'.state != Content {
          RunExtend(d, e, r');
        } else {
          ContentRuns(d, r');
          ContentRuns(e, Step(e, r).request);
        }
      }
    }
  }

  lemma LineBreakAgain(d: string, e: string, r: Request)
    requires WellFormed(d, r) && d <= e && WellFormed(e, r) && BeforeContent(r.state)
    requires var s := Step(d, r).request.state; s == Content || s == Finish
    ensures r.state == HeaderLineBreak && LineFeeds(d, r.cur, Span(d, r.cur, Break)) > 1
    ensures forall f :: f == d || f == e ==>
              Step(f, r) == if r.contentLength == 0 then Stop(FinishOk, r.(state := Finish))
                            else Next(r.(cur := Span(f, r.cur, Break), state := Content))
  {
    hide MatchesName, Atoi, LineFeeds, Span, AllIn;
    BreaksExtend(d, e, r.cur);
  }

  /** Where the blank line is that a run came past, on the bytes `d` and on any longer ones: it begins at `i`. */
  lemma {:induction false} HeadersEndAt(d: string, e: string, r: Request) returns (i: nat)
    requires WellFormed(d, r) && d <= e && WellFormed(e, r)
    requires BeforeContent(r.state) && Run(d, r).Returned?
    requires Run(d, r).request.state == Content || Run(d, r).request.state == Finish
    ensures i <= |d| && LineFeeds(d, i, Span(d, i, Break)) > 1
    ensures Run(e, r).Returned? && Run(e, r).request.contentLength == Run(d, r).request.contentLength
    ensures Run(d, r).request.contentLength == 0 ==> Run(e, r).request.cur == i
    ensures Run(d, r).request.contentLength != 0 ==>
              && Run(d, r).request.cur == Span(d, i, Break)
              && Run(e, r).request.cur == Span(e, i, Break)
              && (Run(e, r).result == FinishOk ==> Run(e, r).request.contentStart == Run(e, r).request.cur)
    decreases |d| - r.cur, Rank(r.state)
  {
    hide Step;
    StepProgress(d, r);
    StepProgress(e, r);
    StepShape(d, r);
    var s := Step(d, r).request.state;
    if s == Content || s == Finish {
      LineBreakAgain(d, e, r);
      i := r.cur;
      if r.contentLength != 0 {
        ContentRuns(d, Step(d, r).request);
        ContentRuns(e, Step(e, r).request);
      }
    } else {
      OneStepExtend(d, e, r);
      WellFormedExtend(d, e, Step(d, r).request);
      i := HeadersEndAt(d, e, Step(d, r).request);
    }
  }

  lemma StopStays(d: string, e: string, r: Request)
    requires WellFormed(d, r) && d <= e && WellFormed(e, r)
    requires Step(d, r).Stop? && Step(d, r).result == FinishInvalid
    ensures WellFormed(e, Step(d, r).request)
    ensures Step(e, Step(d, r).request).Stop? && Step(e, Step(d, r).request).result == FinishInvalid
  {
    hide MatchesName, Atoi, LineFeeds, Span, AllIn;
    var r1 := Step(d, r).request;
    match r.state {
      case SpaceAfterUrl => StepExtendFirstLine(d, e, r);
      case HeaderLineBreak => StepExtendLineBreak(d, e, r);
      case Content =>
      case _ => StepExtend(d, e, r);
    }
    if r.state == HeaderValue {
      assert r1 == r.(headers := r1.headers);
      ScanExtend(d, e, r.cur, NotBreak);
      assert Slice(e, r.curKey) == Slice(d, r.curKey);
    }
  }

  lemma {:induction false} InvalidStays(d: string, e: string, r: Request)
    requires WellFormed(d, r) && d <= e && WellFormed(e, r)
    requires Run(d, r).Returned? && Run(d, r).result == FinishInvalid
    ensures WellFormed(e, Run(d, r).request)
    ensures Run(e, Run(d, r).request).Returned?
    ensures Run(e, Run(d, r).request).result == FinishInvalid
    decreases |d| - r.cur, Rank(r.state)
  {
    hide Step;
    StepProgress(d, r);
    match Step(d, r)
    case Next(r') =>
      WellFormedExtend(d, e, r');
      InvalidStays(d, e, r');
    case Stop(_, r1) =>
      StopStays(d, e, r);
  }

  // ---- A whole connection's worth of calls ----

  predicate Growing(chunks: seq<string>) {
    forall i :: 0 < i < |chunks| ==> chunks[i - 1] <= chunks[i]
  }

  function Last(chunks: seq<string>): string
    requires chunks != []
  {
    chunks[|chunks| - 1]
  }

  /** Call the parser once per chunk, each time with everything received so far. */
  function Feed(chunks: seq<string>): (f: RunResult)
    requires chunks != [] && Growing(chunks)
    ensures f.Returned? ==> WellFormed(Last(chunks), f.request)
  {
    if |chunks| == 1 then
      RunKeeps(chunks[0], Initial());
      Run(chunks[0], Initial())
    else
      var before := chunks[..|chunks| - 1];
      match Feed(before)
      case Diverges => Diverges
      case Returned(_, r) =>
        WellFormedExtend(Last(before), Last(chunks), r);
        RunKeeps(Last(chunks), r);
        Run(Last(chunks), r)
  }

  /** The received bytes stop inside the query string: METHOD, blanks, URL, '?', and no blank since. */
  ghost predicate EndsInQuery(d: string) {
    exists i: nat, j: nat, k: nat | i < j <= k < |d| ::
      && AllIn(d[..i], MethodSymbol) && AllIn(d[i..j], Blank) && AllIn(d[j..k], UrlSymbol)
      && d[k] == '?' && ' ' !in d[k..]
  }

  predicate PastQuery(s: State) {
    Rank(s) < Rank(UrlParameters)
  }

  lemma {:induction false} PastQueryReturns(d: string, r: Request)
    requires WellFormed(d, r) && PastQuery(r.state)
    ensures Run(d, r).Returned?
    decreases |d| - r.cur, Rank(r.state)
  {
    StepProgress(d, r);
    match Step(d, r)
    case Stop(_, _) =>
    case Next(r') => PastQueryReturns(d, r');
  }

  function AfterMethod(i: nat): Request {
    Initial().(meth := Field(0, i), cur := i, state := SpaceAfterMethod)
  }

  function AtUrl(i: nat, j: nat): Request {
    AfterMethod(i).(cur := j, state := Url)
  }

  function AtQuery(i: nat, j: nat, k: nat): Request
    requires j <= k
  {
    AtUrl(i, j).(url := Field(j, k - j), cur := k, state := UrlParameters)
  }

  lemma HangPassesMethod(d: string)
    ensures var i := Span(d, 0, MethodSymbol);
            Run(d, Initial()).Diverges? <==> i < |d| && d[i] == ' ' && Run(d, AfterMethod(i)).Diverges?
  {
    hide Run, MatchesName, Atoi, LineFeeds, Span;
    var i := Span(d, 0, MethodSymbol);
    if i < |d| && d[i] == ' ' {
      RunNext(d, Initial(), AfterMethod(i));
    } else {
      RunStops(d, Initial());
    }
  }

  lemma HangPassesSpaces(d: string, i: nat)
    requires i < |d|
    ensures var j := Span(d, i, Blank);
            Run(d, AfterMethod(i)).Diverges? <==> j < |d| && !IsBreak(d[j]) && Run(d, AtUrl(i, j)).Diverges?
  {
    hide Run;
    var j := Span(d, i, Blank);
    if j < |d| && !IsBreak(d[j]) {
      RunNext(d, AfterMethod(i), AtUrl(i, j));
    } else {
      RunStops(d, AfterMethod(i));
    }
  }

  lemma HangPassesUrl(d: string, i: nat, j: nat)
    requires j < |d|
    ensures var k := Span(d, j, UrlSymbol);
            Run(d, AtUrl(i, j)).Diverges? <==> k < |d| && d[k] == '?' && ' ' !in d[k..]
  {
    var r := AtUrl(i, j);
    StepProgress(d, r);
    if Step(d, r).Next? {
      var r' := Step(d, r).request;
      if PastQuery(r'.state) {
        PastQueryReturns(d, r');
      } else {
        assert r' == AtQuery(i, j, Span(d, j, UrlSymbol));
        HangPassesQuery(d, r');
      }
    }
  }

  lemma HangPassesQuery(d: string, r: Request)
    requires WellFormed(d, r) && r.state == UrlParameters
    ensures Run(d, r).Diverges? <==> ' ' !in d[r.cur..]
  {
    StepProgress(d, r);
    if !StuckInQuery(d, r) {
      PastQueryReturns(d, Step(d, r).request);
    }
  }

  lemma HangsOnlyInQuery(d: string)
    requires Run(d, Initial()).Diverges?
    ensures EndsInQuery(d)
  {
    hide Run, Initial;
    HangPassesMethod(d);
    var i := Span(d, 0, MethodSymbol);
    HangPassesSpaces(d, i);
    var j := Span(d, i, Blank);
    HangPassesUrl(d, i, j);
    var k := Span(d, j, UrlSymbol);
    assert AllIn(d[..i], MethodSymbol) && AllIn(d[i..j], Blank) && AllIn(d[j..k], UrlSymbol);
  }

  lemma QueryHangs(d: string)
    requires EndsInQuery(d)
    ensures Run(d, Initial()).Diverges?
  {
    var i: nat, j: nat, k: nat :| i < j <= k < |d|
      && AllIn(d[..i], MethodSymbol) && AllIn(d[i..j], Blank) && AllIn(d[j..k], UrlSymbol)
      && d[k] == '?' && ' ' !in d[k..];
    hide Run, EndsInQuery;
    SlicesAreSpans(d, i, j, k);
    HangPassesMethod(d);
    HangPassesSpaces(d, i);
    HangPassesUrl(d, i, j);
  }

  lemma SlicesAreSpans(d: string, i: nat, j: nat, k: nat)
    requires i < j <= k < |d| && d[k] == '?'
    requires AllIn(d[..i], MethodSymbol) && AllIn(d[i..j], Blank) && AllIn(d[j..k], UrlSymbol)
    ensures Span(d, 0, MethodSymbol) == i && Span(d, i, Blank) == j && Span(d, j, UrlSymbol) == k
    ensures d[i] == ' ' && !IsBreak(d[j])
  {
    forall x | 0 <= x < i ensures InClass(d[x], MethodSymbol) { assert d[x] == d[..i][x]; }
    forall x | i <= x < j ensures d[x] == ' ' { assert d[x] == d[i..j][x - i]; }
    forall x | j <= x < k ensures InClass(d[x], UrlSymbol) { assert d[x] == d[j..k][x - j]; }
    SpanIs(d, j, UrlSymbol, k);
    assert !InClass(d[j], Blank) && !InClass(d[i], MethodSymbol);
    SpanIs(d, 0, MethodSymbol, i);
    SpanIs(d, i, Blank, j);
  }

  /** The parser hangs on the first call exactly when the received bytes stop inside the query string. */
  lemma HangsExactlyInQuery(d: string)
    ensures Run(d, Initial()).Diverges? <==> EndsInQuery(d)
  {
    if Run(d, Initial()).Diverges? {
      HangsOnlyInQuery(d);
    }
    if EndsInQuery(d) {
      QueryHangs(d);
    }
  }

  /** Between these two chunks the blank line was complete and another line break followed it. */
  predicate SplitsBreaks(d: string, e: string) {
    Run(d, Initial()).Returned? && BreakAtEdge(d, e, Run(d, Initial()).request)
  }

  predicate Agree(a: RunResult, b: RunResult) {
    && a.Returned? && b.Returned? && a.result == b.result
    && (a.result != FinishInvalid ==> a.request == b.request)
  }

  lemma {:induction false} LastIsLongest(chunks: seq<string>, j: nat)
    requires Growing(chunks) && j < |chunks|
    ensures chunks[j] <= Last(chunks)
    decreases |chunks| - j
  {
    if j + 1 < |chunks| {
      LastIsLongest(chunks, j + 1);
    }
  }

  lemma FinishedStays(e: string, r: Request)
    requires WellFormed(e, r) && r.state == Finish
    ensures Run(e, r) == Returned(FinishOk, r)
  {
    RunStops(e, r);
  }

  lemma OneMoreChunk(before: seq<string>, e: string, r: Request)
    requires before != [] && Growing(before) && Last(before) <= e && WellFormed(e, r)
    requires Feed(before).Returned? && Feed(before).request == r
    requires Agree(Feed(before), Run(Last(before), Initial()))
    requires Feed(before).result == FinishOk ==> r.state == Finish
    requires !EndsInQuery(e) && !SplitsBreaks(Last(before), e)
    ensures Agree(Run(e, r), Run(e, Initial()))
    ensures Run(e, r).result == FinishOk ==> Run(e, r).request.state == Finish
  {
    hide Step, Run, Feed, EndsInQuery, Initial;
    InitialFits(Last(before));
    InitialFits(e);
    HangsExactlyInQuery(e);
    RunExtend(Last(before), e, Initial());
    match Feed(before).result
    case NeedMoreData => FinishMeansFinished(e, r);
    case FinishOk => FinishedStays(e, r);
    case FinishInvalid => FeedInvalid(before, e);
  }

  lemma {:induction false} FeedAgrees(chunks: seq<string>)
    requires chunks != [] && Growing(chunks)
    requires forall i :: 0 <= i < |chunks| ==> !EndsInQuery(chunks[i])
    requires forall i :: 0 < i < |chunks| ==> !SplitsBreaks(chunks[i - 1], chunks[i])
    ensures Agree(Feed(chunks), Run(Last(chunks), Initial()))
    ensures Feed(chunks).result == FinishOk ==> Feed(chunks).request.state == Finish
  {
    hide Step, Run, EndsInQuery, SplitsBreaks;
    var e := Last(chunks);
    HangsExactlyInQuery(e);
    if |chunks| == 1 {
      FinishMeansFinished(e, Initial());
    } else {
      var before := chunks[..|chunks| - 1];
      FeedAgrees(before);
      var r := Feed(before).request;
      WellFormedExtend(Last(before), e, r);
      assert Last(before) == chunks[|chunks| - 1 - 1];
      OneMoreChunk(before, e, r);
    }
  }

  lemma {:induction false} FinishMeansFinished(d: string, r: Request)
    requires WellFormed(d, r)
    ensures Run(d, r).Returned? ==>
              match Run(d, r).result
              case FinishOk => Run(d, r).request.state == Finish
              case FinishInvalid => Run(d, r).request.state != Content && Run(d, r).request.state != Finish
              case NeedMoreData => Run(d, r).request.state != Finish
    decreases |d| - r.cur, Rank(r.state)
  {
    StepProgress(d, r);
    match Step(d, r)
    case Stop(_, _) =>
    case Next(r') => if r' != r { FinishMeansFinished(d, r'); }
  }

  /** `finishInvalid` is final. */
  lemma FeedInvalid(chunks: seq<string>, e: string)
    requires chunks != [] && Growing(chunks) && Last(chunks) <= e
    requires Feed(chunks).Returned? && Feed(chunks).result == FinishInvalid
    ensures WellFormed(e, Feed(chunks).request)
    ensures Run(e, Feed(chunks).request).Returned?
    ensures Run(e, Feed(chunks).request).result == FinishInvalid
  {
    hide Step, Run;
    var d := Last(chunks);
    if |chunks| == 1 {
      InvalidStays(d, e, Initial());
    } else {
      var before := chunks[..|chunks| - 1];
      var r := Feed(before).request;
      WellFormedExtend(Last(before), d, r);
      WellFormedExtend(d, e, r);
      InvalidStays(d, e, r);
    }
  }

  lemma {:induction false} FeedDisagrees(chunks: seq<string>, j: nat)
    requires chunks != [] && Growing(chunks)
    requires forall i :: 0 <= i < |chunks| ==> !EndsInQuery(chunks[i])
    requires j + 1 < |chunks| && SplitsBreaks(chunks[j], chunks[j + 1])
    requires forall i :: 0 < i <= j ==> !SplitsBreaks(chunks[i - 1], chunks[i])
    ensures Feed(chunks).Returned?
    ensures var r := Feed(chunks).request;
            (r.state == Content || r.state == Finish) && r.cur == |chunks[j]|
    decreases |chunks|
  {
    hide Step, Run;
    var e := Last(chunks);
    var before := chunks[..|chunks| - 1];
    var d := Last(before);
    if |chunks| == j + 2 {
      assert d == chunks[j];
      FeedAgrees(before);
      HangsExactlyInQuery(d);
      FinishMeansFinished(d, Initial());
    } else {
      assert before[j] == chunks[j] && before[j + 1] == chunks[j + 1];
      FeedDisagrees(before, j);
    }
    var r := Feed(before).request;
    WellFormedExtend(d, e, r);
    ContentStays(e, r);
  }

  lemma ContentStays(e: string, r: Request)
    requires WellFormed(e, r) && (r.state == Content || r.state == Finish)
    ensures Run(e, r).Returned?
    ensures var r' := Run(e, r).request; (r'.state == Content || r'.state == Finish) && r'.cur == r.cur
  {
    StepProgress(e, r);
  }

  ghost predicate NoBreaksSplit(chunks: seq<string>) {
    forall i :: 0 < i < |chunks| ==> !SplitsBreaks(chunks[i - 1], chunks[i])
  }

  lemma FirstSplit(chunks: seq<string>) returns (j: nat)
    requires !NoBreaksSplit(chunks)
    ensures j + 1 < |chunks| && SplitsBreaks(chunks[j], chunks[j + 1])
    ensures forall i :: 0 < i <= j ==> !SplitsBreaks(chunks[i - 1], chunks[i])
  {
    j := 0;
    while !SplitsBreaks(chunks[j], chunks[j + 1])
      invariant j + 1 < |chunks|
      invariant forall i :: 0 < i <= j ==> !SplitsBreaks(chunks[i - 1], chunks[i])
      decreases |chunks| - j
    {
      j := j + 1;
      if j + 1 == |chunks| {
        assert false;
      }
    }
  }

  /** Chunk independence, exactly. Whatever the sizes of the pieces a request arrives in, as long as
      no piece ends inside the query string, the incremental parse and the one-shot parse of the last
      chunk give the same result and the same offsets and headers, if and only if no chunk boundary
      falls inside the line breaks around the blank line of a request that has a body. */
  lemma ChunkIndependence(chunks: seq<string>)
    requires chunks != [] && Growing(chunks)
    requires forall i :: 0 <= i < |chunks| ==> !EndsInQuery(chunks[i])
    ensures Agree(Feed(chunks), Run(Last(chunks), Initial())) <==> NoBreaksSplit(chunks)
  {
    hide Step, Run, Feed, EndsInQuery, Initial;
    InitialFits(Last(chunks));
    if NoBreaksSplit(chunks) {
      FeedAgrees(chunks);
    } else {
      var j := FirstSplit(chunks);
      FeedDisagrees(chunks, j);
      var d, e := chunks[j], Last(chunks);
      LastIsLongest(chunks, j + 1);
      HangsExactlyInQuery(d);
      InitialFits(d);
      RunExtend(d, e, Initial());
    }
  }

  /** One more chunk, when no earlier one ended inside the query string. */
  lemma HangsOnNext(before: seq<string>, e: string, r: Request)
    requires before != [] && Growing(before) && Last(before) <= e && WellFormed(e, r)
    requires forall i :: 0 <= i < |before| ==> !EndsInQuery(before[i])
    requires Feed(before).Returned? && Feed(before).request == r
    ensures Run(e, r).Diverges? <==> EndsInQuery(e)
  {
    hide Step, Run, Feed, EndsInQuery, Initial;
    var d := Last(before);
    InitialFits(d);
    InitialFits(e);
    HangsExactlyInQuery(d);
    HangsExactlyInQuery(e);
    if NoBreaksSplit(before) {
      FeedAgrees(before);
      RunExtend(d, e, Initial());
      FinishMeansFinished(d, Initial());
      match Feed(before).result
      case NeedMoreData => HangsIfWaiting(d, e, r);
      case FinishOk => FinishedStays(e, r);
      case FinishInvalid => FeedInvalid(before, e);
    } else {
      var j := FirstSplit(before);
      FeedDisagrees(before, j);
      ContentStays(e, r);
      LastIsLongest(before, j + 1);
      HangsExactlyInQuery(before[j]);
      InitialFits(before[j]);
      RunExtend(before[j], e, Initial());
    }
  }

  lemma HangsIfWaiting(d: string, e: string, r: Request)
    requires d <= e && WellFormed(e, r) && Run(d, Initial()) == Returned(NeedMoreData, r)
    ensures Run(e, r).Diverges? <==> Run(e, Initial()).Diverges?
  {
    hide Step, Run, Initial;
    InitialFits(d);
    InitialFits(e);
    RunExtend(d, e, Initial());
    if BreakAtEdge(d, e, r) {
      ContentStays(e, r);
    }
  }

  /** Whatever calls came before: some parse call of a connection never returns if and only if one of the views
      ends inside the query string. */
  lemma {:induction false} FeedHangsExactly(chunks: seq<string>)
    requires chunks != [] && Growing(chunks)
    ensures Feed(chunks).Diverges? <==> exists i :: 0 <= i < |chunks| && EndsInQuery(chunks[i])
    decreases |chunks|
  {
    hide Step, Run, EndsInQuery;
    var e := Last(chunks);
    HangsExactlyInQuery(e);
    if |chunks| > 1 {
      var before := chunks[..|chunks| - 1];
      FeedHangsExactly(before);
      if Feed(before).Returned? {
        WellFormedExtend(Last(before), e, Feed(before).request);
        assert forall i :: 0 <= i < |before| ==> before[i] == chunks[i];
        HangsOnNext(before, e, Feed(before).request);
      } else {
        var i :| 0 <= i < |before| && EndsInQuery(before[i]);
        assert chunks[i] == before[i];
      }
    }
  }
}
