/** The request parser as a state machine over the bytes received so far
    (HttpRequest::parseInternal in src/HttpRequest.cpp). */
module HttpMachine {
  import opened HttpSyntax

  datatype State =
    | Method
    | SpaceAfterMethod
    | Url
    | UrlParameters
    | SpaceAfterUrl
    | HeaderKey
    | HeaderSpace
    | HeaderValue
    | HeaderLineBreak
    | Finish
    | Content
    | Invalid

  datatype ParseResult = FinishOk | FinishInvalid | NeedMoreData

  datatype Field = Field(start: nat, length: nat) {
    function End(): nat { start + length }
  }

  datatype Header = Header(key: Field, value: Field)

  datatype Request = Request(
    state: State,
    cur: nat,
    meth: Field,
    url: Field,
    urlParameters: Field,
    contentStart: nat,
    contentLength: int,
    curKey: Field,
    headers: seq<Header>)

  const MAX_LENGTH_CHARS: nat := 30
  const CONTENT_LENGTH: string := "Content-Length"

  function Initial(): Request {
    Request(Method, 0, Field(0, 0), Field(0, 0), Field(0, 0), 0, 0, Field(0, 0), [])
  }

  function Slice(d: string, f: Field): string
    requires f.End() <= |d|
  {
    d[f.start..f.End()]
  }

  datatype Outcome = Next(request: Request) | Stop(result: ParseResult, request: Request)

  /** What each state knows about the byte at `cur`; this is what makes the header cycle advance. */
  predicate WellFormed(d: string, r: Request) {
    && r.cur <= |d|
    && r.curKey.End() <= |d|
    && (r.state == HeaderSpace ==> r.cur < |d| && d[r.cur] == ':')
    && (r.state == HeaderLineBreak ==> r.cur < |d| && IsBreak(d[r.cur]))
  }

  lemma InitialFits(d: string)
    ensures WellFormed(d, Initial()) && Initial().state == Method && Initial().cur == 0
  {
  }

  function StoreHeader(d: string, r: Request, n: nat): Outcome
    requires WellFormed(d, r) && r.cur + n <= |d|
  {
    var r1 := r.(headers := r.headers + [Header(r.curKey, Field(r.cur, n))]);
    if !MatchesName(CONTENT_LENGTH, Slice(d, r.curKey)) then
      Next(r1.(cur := r.cur + n, state := HeaderLineBreak))
    else if n > MAX_LENGTH_CHARS then
      Stop(FinishInvalid, r1)
    else
      Next(r1.(contentLength := Atoi(d[r.cur..r.cur + n]), cur := r.cur + n, state := HeaderLineBreak))
  }

  /** What a step does with the scanner's answer when it is not `Ok`. */
  function Refuse(o: ReadOutcome, r: Request): Outcome {
    Stop(if o.NeedMore? then NeedMoreData else FinishInvalid, r)
  }

  /** One pass of the `switch` inside the parser's loop. */
  function Step(d: string, r: Request): Outcome
    requires WellFormed(d, r)
  {
    match r.state
    case Method =>
      var o := ScanMethod(d, r.cur);
      if o.Ok? then
        Next(r.(meth := Field(r.cur, o.length), cur := r.cur + o.length, state := SpaceAfterMethod))
      else Refuse(o, r)
    case SpaceAfterMethod =>
      var o := ScanSpaces(d, r.cur);
      if o.Ok? then Next(r.(cur := r.cur + o.length, state := Url)) else Refuse(o, r)
    case Url =>
      var o := ScanUrl(d, r.cur);
      if o.Ok? || o.Question? then
        Next(r.(url := Field(r.cur, o.length), cur := r.cur + o.length,
                state := if o.Ok? then SpaceAfterUrl else UrlParameters))
      else Refuse(o, r)
    case UrlParameters =>
      var o := ScanUrlParameters(d, r.cur);
      if o.Ok? then
        Next(r.(urlParameters := Field(r.cur, o.length), cur := r.cur + o.length, state := SpaceAfterUrl))
      else Next(r)
    case SpaceAfterUrl =>
      var o := ScanToNextLine(d, r.cur);
      if o.Ok? then Next(r.(cur := r.cur + o.length, state := HeaderKey)) else Refuse(o, r)
    case HeaderKey =>
      var o := ScanHeaderKey(d, r.cur);
      if o.Ok? then
        Next(r.(curKey := Field(r.cur, o.length), cur := r.cur + o.length, state := HeaderSpace))
      else Refuse(o, r)
    case HeaderSpace =>
      var o := ScanHeaderSpace(d, r.cur);
      if o.Ok? then Next(r.(cur := r.cur + o.length, state := HeaderValue)) else Refuse(o, r)
    case HeaderValue =>
      var o := ScanHeaderValue(d, r.cur);
      if o.Ok? then StoreHeader(d, r, o.length) else Refuse(o, r)
    case HeaderLineBreak =>
      var o := ScanHeaderLineBreak(d, r.cur);
      if o.Ok? then Next(r.(cur := r.cur + o.length, state := HeaderKey))
      else if o.EndOfHeaders? then
        if r.contentLength == 0 then Stop(FinishOk, r.(state := Finish))
        else Next(r.(cur := r.cur + o.length, state := Content))
      else Refuse(o, r)
    case Content =>
      if |d| - r.cur >= r.contentLength then Stop(FinishOk, r.(contentStart := r.cur, state := Finish))
      else Stop(NeedMoreData, r)
    case Finish => Stop(FinishOk, r)
    case Invalid => Stop(FinishInvalid, r)
  }

  function Rank(s: State): nat {
    match s
    case Method => 11
    case SpaceAfterMethod => 10
    case Url => 9
    case UrlParameters => 8
    case SpaceAfterUrl => 7
    case HeaderKey => 6
    case HeaderSpace => 5
    case HeaderValue => 4
    case HeaderLineBreak => 3
    case Content => 2
    case Finish => 1
    case Invalid => 0
  }

  /** The loop cannot make progress: it is in the query string and no blank follows. */
  predicate StuckInQuery(d: string, r: Request)
    requires r.cur <= |d|
  {
    r.state == UrlParameters && ' ' !in d[r.cur..]
  }

  lemma StuckIsSpan(d: string, r: Request)
    requires r.cur <= |d|
    ensures StuckInQuery(d, r) <==> r.state == UrlParameters && Span(d, r.cur, NotBlank) == |d|
  {
    var j := Span(d, r.cur, NotBlank);
    if j < |d| {
      assert d[r.cur..][j - r.cur] == ' ';
    } else {
      forall x | 0 <= x < |d[r.cur..]|
        ensures d[r.cur..][x] != ' '
      {
        assert InClass(d[r.cur + x], NotBlank);
      }
    }
  }

  lemma StepBounds(d: string, r: Request)
    requires WellFormed(d, r)
    ensures r.cur <= Step(d, r).request.cur <= |d|
  {
    hide MatchesName, Atoi, LineFeeds, MAX_LENGTH_CHARS, CONTENT_LENGTH, InClass, IsBreak;
  }

  lemma StepKeepsKnowledge(d: string, r: Request)
    requires WellFormed(d, r)
    ensures WellFormed(d, Step(d, r).request)
  {
    StepBounds(d, r);
  }

  lemma StepRank(d: string, r: Request)
    requires WellFormed(d, r)
    requires Step(d, r).Next? && Step(d, r).request.cur == r.cur && r.state != UrlParameters
    ensures Rank(Step(d, r).request.state) < Rank(r.state)
  {
    hide MatchesName, Atoi, LineFeeds;
  }

  /** Every pass of the loop returns, advances `cur`, or moves to a later state at the same `cur`;
      the one exception is a pass that changes nothing, and it happens exactly in the query string
      with no blank left to read. */
  lemma StepProgress(d: string, r: Request)
    requires WellFormed(d, r)
    ensures WellFormed(d, Step(d, r).request)
    ensures r.cur <= Step(d, r).request.cur
    ensures Step(d, r) == Next(r) <==> StuckInQuery(d, r)
    ensures Step(d, r).Next? && !StuckInQuery(d, r) ==>
              var r' := Step(d, r).request;
              r.cur < r'.cur || Rank(r'.state) < Rank(r.state)
  {
    StepBounds(d, r);
    StepKeepsKnowledge(d, r);
    StuckIsSpan(d, r);
    if Step(d, r).Next? && Step(d, r).request.cur == r.cur && r.state != UrlParameters {
      StepRank(d, r);
    }
  }

  datatype RunResult = Returned(result: ParseResult, request: Request) | Diverges

  /** The parser's loop: `Diverges` stands for a loop that repeats the same state for ever. */
  function Run(d: string, r: Request): RunResult
    requires WellFormed(d, r)
    decreases |d| - r.cur, Rank(r.state)
  {
    StepProgress(d, r);
    match Step(d, r)
    case Stop(result, r') => Returned(result, r')
    case Next(r') => if r' == r then Diverges else Run(d, r')
  }

  lemma RunNext(d: string, r: Request, r': Request)
    requires WellFormed(d, r) && Step(d, r) == Next(r') && r' != r
    ensures WellFormed(d, r') && Run(d, r) == Run(d, r')
  {
    hide Step;
    StepProgress(d, r);
  }

  lemma RunStops(d: string, r: Request)
    requires WellFormed(d, r) && Step(d, r).Stop?
    ensures Run(d, r) == Returned(Step(d, r).result, Step(d, r).request)
  {
    hide Step;
  }

  /** `n` passes of the loop. */
  function Iterate(d: string, r: Request, n: nat): Outcome
    requires WellFormed(d, r)
    decreases n
  {
    StepProgress(d, r);
    if n == 0 then Next(r)
    else match Step(d, r)
      case Stop(result, r') => Stop(result, r')
      case Next(r') => Iterate(d, r', n - 1)
  }

  /** `Run` is the loop: it has a result exactly when some number of passes reaches a `return`, and
      then it is that one; and `Diverges` means that no number of passes ever returns. */
  lemma {:induction false} RunIsTheLoop(d: string, r: Request, n: nat)
    requires WellFormed(d, r)
    ensures Run(d, r).Diverges? ==> Iterate(d, r, n).Next?
    ensures Iterate(d, r, n).Stop? ==>
              Run(d, r) == Returned(Iterate(d, r, n).result, Iterate(d, r, n).request)
    decreases n
  {
    hide Step;
    StepProgress(d, r);
    if n > 0 && Step(d, r).Next? {
      RunIsTheLoop(d, Step(d, r).request, n - 1);
    }
  }

  lemma {:induction false} RunReturns(d: string, r: Request) returns (n: nat)
    requires WellFormed(d, r)
    ensures Run(d, r).Returned? ==>
              Iterate(d, r, n) == Stop(Run(d, r).result, Run(d, r).request)
    decreases |d| - r.cur, Rank(r.state)
  {
    hide Step;
    StepProgress(d, r);
    n := 1;
    if Step(d, r).Next? && Step(d, r).request != r {
      var m := RunReturns(d, Step(d, r).request);
      n := m + 1;
    } else if Step(d, r).Stop? {
      assert Iterate(d, r, 1) == Step(d, r);
    }
  }

  lemma {:induction false} RunKeeps(d: string, r: Request)
    requires WellFormed(d, r)
    ensures Run(d, r).Returned? ==> WellFormed(d, Run(d, r).request) && r.cur <= Run(d, r).request.cur
    decreases |d| - r.cur, Rank(r.state)
  {
    hide Step;
    StepProgress(d, r);
    match Step(d, r)
    case Stop(_, _) =>
    case Next(r') => if r' != r { RunKeeps(d, r'); }
  }

  /** Parsing the same bytes again after needMoreData changes nothing. */
  lemma {:induction false} NeedMoreIsStable(d: string, r: Request)
    requires WellFormed(d, r) && Run(d, r).Returned? && Run(d, r).result == NeedMoreData
    ensures WellFormed(d, Run(d, r).request)
    ensures Run(d, Run(d, r).request) == Run(d, r)
    decreases |d| - r.cur, Rank(r.state)
  {
    hide Step;
    StepProgress(d, r);
    if Step(d, r).Next? {
      NeedMoreIsStable(d, Step(d, r).request);
    } else {
      StepWaits(d, r);
    }
  }

  lemma StepWaits(d: string, r: Request)
    requires WellFormed(d, r)
    ensures Step(d, r).Stop? && Step(d, r).result == NeedMoreData ==> Step(d, r).request == r
  {
  }
}
