/** Rendering a request and parsing it again: the parser recovers every part of the message
    (sections 3.1.1, 3.2 and 3.3.2 of RFC 7230). */
module HttpRender {
  import opened HttpSyntax
  import opened HttpMachine
  import opened HttpNames
  import opened Decimals
  import opened Sequences

  datatype Query = NoQuery | Query(text: string)

  /** A request as its author wrote it: blanks behind the method, line ends of either kind, and what makes the end of
      the last header's line the end of the headers. */
  datatype Message = Message(
    meth: string,
    gap: string,
    url: string,
    query: Query,
    version: string,
    eol: string,
    headers: seq<HeaderText>,
    blank: string,
    body: string)

  function RenderHeader(h: HeaderText): string {
    h.key + (h.sep + (h.value + h.eol))
  }

  function RenderHeaders(hs: seq<HeaderText>): string {
    if hs == [] then "" else RenderHeader(hs[0]) + RenderHeaders(hs[1..])
  }

  function QueryText(q: Query): string {
    if q.NoQuery? then "" else "?" + q.text
  }

  function RenderTail(m: Message): string {
    RenderHeaders(m.headers) + (m.blank + m.body)
  }

  function RenderAfterTarget(m: Message): string {
    (" " + m.version) + (m.eol + RenderTail(m))
  }

  function RenderTarget(m: Message): string {
    m.url + (QueryText(m.query) + RenderAfterTarget(m))
  }

  function Render(m: Message): string {
    m.meth + (m.gap + RenderTarget(m))
  }

  function Feeds(s: string): nat {
    LineFeeds(s, 0, |s|)
  }

  /** Line break characters with one line feed at most. */
  predicate EndsOneLine(s: string) {
    s != "" && AllIn(s, Break) && Feeds(s) <= 1
  }

  predicate ValidHeader(h: HeaderText) {
    && AllIn(h.key, KeySymbol)
    && h.sep != "" && h.sep[0] == ':' && AllIn(h.sep, Separator)
    && h.value != "" && AllIn(h.value, NotBreak) && !InClass(h.value[0], Separator)
    && EndsOneLine(h.eol)
  }

  /** The line break characters from the end of the last header's line on. */
  function HeadEnd(hs: seq<HeaderText>, blank: string): string {
    if hs == [] then blank else hs[|hs| - 1].eol + blank
  }

  /** With the rest of the blank line there is a second line feed. */
  predicate EndsHeaders(hs: seq<HeaderText>, blank: string) {
    AllIn(HeadEnd(hs, blank), Break) && Feeds(HeadEnd(hs, blank)) > 1
  }

  predicate ValidMessage(m: Message) {
    && AllIn(m.meth, MethodSymbol)
    && m.gap != "" && AllIn(m.gap, Blank)
    && AllIn(m.url, UrlSymbol)
    && (m.query.Query? ==> AllIn(m.query.text, NotBlank))
    && m.url + QueryText(m.query) != ""
    && AllIn(m.version, NotBreak)
    && EndsOneLine(m.eol)
    && m.headers != [] && (forall h :: h in m.headers ==> ValidHeader(h)) && EndsHeaders(m.headers, m.blank)
  }

  /** The headers end with their second line feed, as they do with CR LF CR LF. */
  predicate Tight(m: Message) {
    var e := HeadEnd(m.headers, m.blank);
    e != "" && Feeds(e[..|e| - 1]) <= 1
  }

  /** The header named Content-Length announces the body that is there (section 3.3.2 of RFC 7230). */
  predicate Complete(m: Message) {
    RfcLength(m.headers, 0) == |m.body|
  }

  /** How many line breaks the body starts with; the parser takes them for a part of the blank line. */
  function LeadingBreaks(body: string): (k: nat)
    ensures k <= |body|
  {
    Span(body, 0, Break)
  }

  predicate StartsWithBreak(body: string) {
    body != "" && IsBreak(body[0])
  }

  /** The parser sees the same body length as the standard. */
  predicate HeadersUnderstood(hs: seq<HeaderText>) {
    !AnyTooLong(hs) && !Misled(hs)
  }

  predicate Understood(m: Message) {
    HeadersUnderstood(m.headers) && !StartsWithBreak(m.body)
  }

  /** Where the parser should have found the headers when the first one starts at `at`. */
  function Fields(hs: seq<HeaderText>, at: nat): (fs: seq<Header>)
    ensures |fs| == |hs|
  {
    if hs == [] then []
    else
      var v := at + |hs[0].key| + |hs[0].sep|;
      [Header(Field(at, |hs[0].key|), Field(v, |hs[0].value|))] + Fields(hs[1..], v + |hs[0].value| + |hs[0].eol|)
  }

  /** The text `s` stands at position `i` of `d`. */
  predicate At(d: string, i: nat, s: string)
    decreases |s|
  {
    if s == "" then i <= |d| else i < |d| && d[i] == s[0] && At(d, i + 1, s[1..])
  }

  lemma {:induction false} AtIndex(d: string, i: nat, s: string)
    ensures At(d, i, s) <==> i + |s| <= |d| && d[i..i + |s|] == s
    decreases |s|
  {
    if s != "" {
      AtIndex(d, i + 1, s[1..]);
      if i + |s| <= |d| {
        assert d[i..i + |s|] == [d[i]] + d[i + 1..i + |s|];
        assert s == [s[0]] + s[1..];
      }
    }
  }

  lemma AtChar(d: string, i: nat, s: string, x: nat)
    requires At(d, i, s) && x < |s|
    ensures i + |s| <= |d| && d[i + x] == s[x]
  {
    AtIndex(d, i, s);
    assert d[i..i + |s|][x] == s[x];
  }

  lemma {:induction false} AtConcat(d: string, i: nat, s: string, t: string)
    ensures At(d, i, s + t) <==> At(d, i, s) && At(d, i + |s|, t)
    decreases |s|
  {
    if s == "" {
      assert s + t == t;
      AtIndex(d, i, t);
    } else {
      assert (s + t)[1..] == s[1..] + t;
      AtConcat(d, i + 1, s[1..], t);
    }
  }

  lemma SpanAt(d: string, i: nat, s: string, k: CharClass)
    requires At(d, i, s) && AllIn(s, k)
    requires i + |s| < |d| && !InClass(d[i + |s|], k)
    ensures Span(d, i, k) == i + |s|
  {
    forall x | i <= x < i + |s| ensures InClass(d[x], k) {
      AtChar(d, i, s, x - i);
    }
    SpanIs(d, i, k, i + |s|);
  }

  function AfterHeader(r: Request, h: HeaderText): Request {
    var v := r.cur + |h.key| + |h.sep|;
    r.(curKey := Field(r.cur, |h.key|),
       headers := r.headers + Fields([h], r.cur),
       contentLength := if MatchesName(CONTENT_LENGTH, h.key) then Atoi(h.value) else r.contentLength,
       cur := v + |h.value|,
       state := HeaderLineBreak)
  }

  lemma KeyScanned(d: string, r: Request, key: string, sep: string)
    requires WellFormed(d, r) && r.state == HeaderKey && AllIn(key, KeySymbol) && sep != "" && sep[0] == ':'
    requires At(d, r.cur, key) && At(d, r.cur + |key|, sep)
    ensures Step(d, r) == Next(r.(curKey := Field(r.cur, |key|), cur := r.cur + |key|, state := HeaderSpace))
  {
    hide MatchesName, Atoi, LineFeeds, Run, At, AllIn, Span;
    AtChar(d, r.cur + |key|, sep, 0);
    SpanAt(d, r.cur, key, KeySymbol);
  }

  lemma KeyStep(d: string, r: Request, h: HeaderText)
    requires WellFormed(d, r) && r.state == HeaderKey && ValidHeader(h)
    requires At(d, r.cur, RenderHeader(h))
    ensures Step(d, r) == Next(r.(curKey := Field(r.cur, |h.key|), cur := r.cur + |h.key|, state := HeaderSpace))
    ensures WellFormed(d, Step(d, r).request)
    ensures At(d, r.cur, h.key) && At(d, r.cur + |h.key|, h.sep)
    ensures At(d, r.cur + |h.key| + |h.sep|, h.value) && At(d, r.cur + |h.key| + |h.sep| + |h.value|, h.eol)
  {
    hide Run, Step, At, AllIn, Span;
    AtConcat(d, r.cur, h.key, h.sep + (h.value + h.eol));
    AtConcat(d, r.cur + |h.key|, h.sep, h.value + h.eol);
    AtConcat(d, r.cur + |h.key| + |h.sep|, h.value, h.eol);
    AtChar(d, r.cur + |h.key|, h.sep, 0);
    KeyScanned(d, r, h.key, h.sep);
  }

  lemma SpaceStep(d: string, r: Request, sep: string, value: string)
    requires WellFormed(d, r) && r.state == HeaderSpace && sep != "" && AllIn(sep, Separator)
    requires At(d, r.cur, sep) && At(d, r.cur + |sep|, value)
    requires value != "" && !InClass(value[0], Separator) && !IsBreak(value[0])
    ensures Step(d, r) == Next(r.(cur := r.cur + |sep|, state := HeaderValue))
  {
    hide MatchesName, Atoi, LineFeeds, Run, At, AllIn, Span;
    AtChar(d, r.cur + |sep|, value, 0);
    SpanAt(d, r.cur, sep, Separator);
  }

  lemma FirstIn(s: string, k: CharClass)
    requires s != "" && AllIn(s, k)
    ensures InClass(s[0], k)
  {
  }

  lemma EolStarts(h: HeaderText)
    requires ValidHeader(h)
    ensures h.eol != "" && IsBreak(h.eol[0])
  {
    FirstIn(h.eol, Break);
  }

  lemma ValueStep(d: string, r: Request, h: HeaderText)
    requires WellFormed(d, r) && r.state == HeaderValue && ValidHeader(h) && !TooLong(h)
    requires At(d, r.cur, h.value) && At(d, r.cur + |h.value|, h.eol)
    requires Slice(d, r.curKey) == h.key
    ensures Step(d, r) == Next(r.(headers := r.headers + [Header(r.curKey, Field(r.cur, |h.value|))],
                                  contentLength := if MatchesName(CONTENT_LENGTH, h.key) then Atoi(h.value)
                                                   else r.contentLength,
                                  cur := r.cur + |h.value|,
                                  state := HeaderLineBreak))
  {
    hide MatchesName, Atoi, LineFeeds, Run, At, AllIn;
    EolStarts(h);
    AtChar(d, r.cur + |h.value|, h.eol, 0);
    AtIndex(d, r.cur, h.value);
    SpanAt(d, r.cur, h.value, NotBreak);
  }

  lemma FieldsCons(hs: seq<HeaderText>, at: nat)
    requires hs != []
    ensures Fields(hs, at) == Fields(hs[..1], at) + Fields(hs[1..], at + |RenderHeader(hs[0])|)
    ensures Fields(hs[..1], at)
            == [Header(Field(at, |hs[0].key|), Field(at + |hs[0].key| + |hs[0].sep|, |hs[0].value|))]
  {
    assert hs[..1][1..] == [];
    assert |RenderHeader(hs[0])| == |hs[0].key| + |hs[0].sep| + |hs[0].value| + |hs[0].eol|;
  }

  function AtValue(r: Request, h: HeaderText): Request {
    r.(curKey := Field(r.cur, |h.key|), cur := r.cur + |h.key| + |h.sep|, state := HeaderValue)
  }

  function AtSeparator(r: Request, h: HeaderText): Request {
    r.(curKey := Field(r.cur, |h.key|), cur := r.cur + |h.key|, state := HeaderSpace)
  }

  lemma KeyRuns(d: string, r: Request, h: HeaderText)
    requires WellFormed(d, r) && r.state == HeaderKey && ValidHeader(h)
    requires At(d, r.cur, RenderHeader(h))
    ensures WellFormed(d, AtSeparator(r, h)) && Run(d, r) == Run(d, AtSeparator(r, h))
    ensures At(d, r.cur, h.key) && At(d, r.cur + |h.key|, h.sep)
    ensures At(d, r.cur + |h.key| + |h.sep|, h.value) && At(d, r.cur + |h.key| + |h.sep| + |h.value|, h.eol)
  {
    KeyStep(d, r, h);
    RunNext(d, r, AtSeparator(r, h));
  }

  lemma KeyAndSpace(d: string, r: Request, h: HeaderText)
    requires WellFormed(d, r) && r.state == HeaderKey && ValidHeader(h)
    requires At(d, r.cur, RenderHeader(h))
    ensures WellFormed(d, AtValue(r, h)) && Run(d, r) == Run(d, AtValue(r, h))
    ensures At(d, r.cur, h.key)
    ensures At(d, r.cur + |h.key| + |h.sep|, h.value) && At(d, r.cur + |h.key| + |h.sep| + |h.value|, h.eol)
  {
    hide Run, Step;
    KeyRuns(d, r, h);
    SpaceStep(d, AtSeparator(r, h), h.sep, h.value);
    RunNext(d, AtSeparator(r, h), AtValue(r, h));
  }

  lemma KeySlice(d: string, r: Request, h: HeaderText)
    requires At(d, r.cur, h.key)
    ensures AtValue(r, h).curKey.End() <= |d| && Slice(d, AtValue(r, h).curKey) == h.key
  {
    AtSlice(d, r.cur, h.key);
  }

  lemma ValueRuns(d: string, r: Request, h: HeaderText)
    requires WellFormed(d, AtValue(r, h)) && ValidHeader(h) && !TooLong(h)
    requires At(d, r.cur, h.key)
    requires At(d, r.cur + |h.key| + |h.sep|, h.value) && At(d, r.cur + |h.key| + |h.sep| + |h.value|, h.eol)
    ensures WellFormed(d, AfterHeader(r, h)) && Run(d, AtValue(r, h)) == Run(d, AfterHeader(r, h))
  {
    hide Run, Step, At, AllIn, Span, MatchesName, Atoi;
    KeySlice(d, r, h);
    ValueStep(d, AtValue(r, h), h);
    FieldsCons([h], r.cur);
    assert [h][..1] == [h];
    RunNext(d, AtValue(r, h), AfterHeader(r, h));
  }

  /** A body length of too many characters is refused, whatever follows. */
  lemma TooLongStops(d: string, r: Request, h: HeaderText)
    requires WellFormed(d, r) && r.state == HeaderKey && ValidHeader(h) && TooLong(h)
    requires At(d, r.cur, RenderHeader(h))
    ensures Run(d, r).Returned? && Run(d, r).result == FinishInvalid
  {
    hide Run, Step, RenderHeader, ValidHeader, TooLong, At;
    KeyAndSpace(d, r, h);
    KeySlice(d, r, h);
    TooLongStep(d, AtValue(r, h), h);
    RunStops(d, AtValue(r, h));
  }

  lemma TooLongStep(d: string, r: Request, h: HeaderText)
    requires WellFormed(d, r) && r.state == HeaderValue && ValidHeader(h) && TooLong(h)
    requires At(d, r.cur, h.value) && At(d, r.cur + |h.value|, h.eol) && Slice(d, r.curKey) == h.key
    ensures Step(d, r).Stop? && Step(d, r).result == FinishInvalid
  {
    hide Run, MatchesName, Atoi, LineFeeds, At, AllIn;
    EolStarts(h);
    AtChar(d, r.cur + |h.value|, h.eol, 0);
    SpanAt(d, r.cur, h.value, NotBreak);
  }

  lemma OneHeader(d: string, r: Request, h: HeaderText)
    requires WellFormed(d, r) && r.state == HeaderKey && ValidHeader(h) && !TooLong(h)
    requires At(d, r.cur, RenderHeader(h))
    ensures WellFormed(d, AfterHeader(r, h))
    ensures Run(d, r) == Run(d, AfterHeader(r, h))
    ensures At(d, AfterHeader(r, h).cur, h.eol)
  {
    hide Run, Step;
    KeyAndSpace(d, r, h);
    ValueRuns(d, r, h);
  }

  lemma {:induction false} FeedsAt(d: string, i: nat, s: string)
    requires At(d, i, s)
    ensures i + |s| <= |d| && LineFeeds(d, i, i + |s|) == Feeds(s)
    decreases |s|
  {
    hide At;
    AtIndex(d, i, s);
    if s != "" {
      var front := s[..|s| - 1];
      assert s == front + [s[|s| - 1]];
      AtConcat(d, i, front, [s[|s| - 1]]);
      FeedsAt(d, i, front);
      LineFeedsExtend(front, s, 0, |front|, |front|);
      AtChar(d, i, s, |s| - 1);
    }
  }

  lemma BreaksAt(d: string, i: nat, s: string)
    requires At(d, i, s) && AllIn(s, Break)
    ensures i + |s| <= |d| && forall x :: i <= x < i + |s| ==> InClass(d[x], Break)
  {
    AtIndex(d, i, s);
    forall x | i <= x < i + |s| ensures InClass(d[x], Break) {
      AtChar(d, i, s, x - i);
    }
  }

  lemma OneBreakAt(d: string, i: nat, eol: string)
    requires At(d, i, eol) && EndsOneLine(eol) && i + |eol| < |d| && !IsBreak(d[i + |eol|])
    ensures Span(d, i, Break) == i + |eol| && LineFeeds(d, i, i + |eol|) <= 1
    ensures !InClass(d[i], NotBreak)
  {
    hide At;
    FeedsAt(d, i, eol);
    BreaksAt(d, i, eol);
    SpanIs(d, i, Break, i + |eol|);
    assert InClass(d[i], Break);
  }

  lemma OneLineBreak(d: string, r: Request, eol: string)
    requires WellFormed(d, r) && r.state == HeaderLineBreak && EndsOneLine(eol)
    requires At(d, r.cur, eol) && r.cur + |eol| < |d| && !IsBreak(d[r.cur + |eol|])
    ensures WellFormed(d, r.(cur := r.cur + |eol|, state := HeaderKey))
    ensures Run(d, r) == Run(d, r.(cur := r.cur + |eol|, state := HeaderKey))
  {
    hide At, Run, Span, LineFeeds, MatchesName, Atoi, AllIn;
    OneBreakAt(d, r.cur, eol);
    RunNext(d, r, r.(cur := r.cur + |eol|, state := HeaderKey));
  }

  lemma {:induction false} SpanAll(d: string, i: nat, k: CharClass)
    requires i <= |d| && forall x :: i <= x < |d| ==> InClass(d[x], k)
    ensures Span(d, i, k) == |d|
    decreases |d| - i
  {
    if i < |d| {
      SpanAll(d, i + 1, k);
    }
  }

  lemma {:induction false} SpanThrough(d: string, i: nat, j: nat, k: CharClass)
    requires i <= j <= |d| && forall x :: i <= x < j ==> InClass(d[x], k)
    ensures Span(d, i, k) == Span(d, j, k)
    decreases j - i
  {
    if i < j {
      SpanThrough(d, i + 1, j, k);
    }
  }

  lemma {:induction false} SpanShifted(d: string, b: nat, s: string, i: nat, k: CharClass)
    requires b <= |d| && d[b..] == s && i <= |s|
    ensures Span(d, b + i, k) == b + Span(s, i, k)
    decreases |s| - i
  {
    if i < |s| {
      assert d[b + i] == d[b..][i] == s[i];
      SpanShifted(d, b, s, i + 1, k);
    }
  }

  /** The blank line and the line breaks at the start of the body are one run of line breaks. */
  lemma BreaksThenBody(d: string, i: nat, end: string, body: string)
    requires At(d, i, end + body) && i + |end| + |body| == |d| && AllIn(end, Break) && Feeds(end) > 1
    ensures Span(d, i, Break) == i + |end| + LeadingBreaks(body)
    ensures LineFeeds(d, i, Span(d, i, Break)) > 1
  {
    hide At, LineFeeds, AllIn, Span;
    AtConcat(d, i, end, body);
    AtIndex(d, i + |end|, body);
    FeedsAt(d, i, end);
    BreaksAt(d, i, end);
    var b := i + |end|;
    assert d[b..b + |body|] == d[b..];
    SpanThrough(d, i, b, Break);
    SpanShifted(d, b, body, 0, Break);
    LineFeedsExtend(d, d, i, b, Span(d, i, Break));
  }

  /** How a parse that has stored its headers ends in front of `body`, if they announce this length. */
  predicate EndsBefore(d: string, r: Request, hs: seq<Header>, end: nat, body: string, announced: int, o: RunResult)
    requires |body| <= |d|
  {
    var start := |d| - |body| + LeadingBreaks(body);
    && o.Returned?
    && o.request.headers == hs && o.request.contentLength == announced
    && o.request.meth == r.meth && o.request.url == r.url && o.request.urlParameters == r.urlParameters
    && if announced == 0 then
         o.result == FinishOk && o.request.state == Finish && o.request.cur + end + |body| == |d|
       else if LeadingBreaks(body) + announced <= |body| then
         o.result == FinishOk && o.request.state == Finish && o.request.contentStart == start
       else o.result == NeedMoreData && o.request.state == Content && o.request.cur == start
  }

  lemma BlankLineRuns(d: string, r: Request, end: string, body: string)
    requires WellFormed(d, r) && r.state == HeaderLineBreak
    requires At(d, r.cur, end + body) && r.cur + |end| + |body| == |d| && AllIn(end, Break) && Feeds(end) > 1
    ensures EndsBefore(d, r, r.headers, |end|, body, r.contentLength, Run(d, r))
  {
    hide Run, At, AllIn, LineFeeds, Feeds, Span, LeadingBreaks, MatchesName, Atoi;
    BreaksThenBody(d, r.cur, end, body);
    if r.contentLength == 0 {
      RunStops(d, r);
    } else {
      var r' := r.(cur := r.cur + |end| + LeadingBreaks(body), state := Content);
      assert Step(d, r) == Next(r');
      RunNext(d, r, r');
      RunStops(d, r');
    }
  }

  /** How a parse that starts at the first of the headers `hs` ends. */
  ghost predicate ParsesTo(d: string, r: Request, hs: seq<HeaderText>, blank: string, body: string)
    requires WellFormed(d, r) && |body| <= |d|
  {
    if AnyTooLong(hs) then Run(d, r).Returned? && Run(d, r).result == FinishInvalid
    else EndsBefore(d, r, r.headers + Fields(hs, r.cur), |HeadEnd(hs, blank)|, body,
                    AnnouncedLength(hs, r.contentLength), Run(d, r))
  }

  lemma HeaderThenRest(d: string, r: Request, hs: seq<HeaderText>, tail: string)
    requires WellFormed(d, r) && r.state == HeaderKey
    requires hs != [] && ValidHeader(hs[0]) && !TooLong(hs[0])
    requires At(d, r.cur, RenderHeaders(hs) + tail)
    ensures var r1 := AfterHeader(r, hs[0]);
            && WellFormed(d, r1) && Run(d, r) == Run(d, r1)
            && At(d, r1.cur, hs[0].eol) && At(d, r1.cur + |hs[0].eol|, RenderHeaders(hs[1..]) + tail)
  {
    hide Run, Step;
    RenderCons(hs, tail);
    AtConcat(d, r.cur, RenderHeader(hs[0]), RenderHeaders(hs[1..]) + tail);
    OneHeader(d, r, hs[0]);
  }

  lemma RenderCons(hs: seq<HeaderText>, tail: string)
    requires hs != []
    ensures RenderHeaders(hs) + tail == RenderHeader(hs[0]) + (RenderHeaders(hs[1..]) + tail)
    ensures |RenderHeader(hs[0])| == |hs[0].key| + |hs[0].sep| + |hs[0].value| + |hs[0].eol|
  {
  }

  lemma AnnouncedByOne(h: HeaderText, otherwise: int)
    ensures AnnouncedLength([h], otherwise) == if MatchesName(CONTENT_LENGTH, h.key) then Atoi(h.value) else otherwise
  {
    assert [h][1..] == [];
  }

  lemma LastHeader(d: string, r: Request, h: HeaderText, blank: string, body: string)
    requires WellFormed(d, r) && r.state == HeaderKey && ValidHeader(h) && !TooLong(h) && EndsHeaders([h], blank)
    requires At(d, r.cur, RenderHeaders([h]) + (blank + body))
    requires r.cur + |RenderHeaders([h])| + |blank| + |body| == |d|
    ensures ParsesTo(d, r, [h], blank, body)
  {
    hide Run, Step, AnnouncedLength, MatchesName, Atoi, At, Fields, ValidHeader, LeadingBreaks, TooLong;
    HeaderThenRest(d, r, [h], blank + body);
    RenderCons([h], "");
    var r1 := AfterHeader(r, h);
    assert [h][1..] == [];
    assert RenderHeaders([]) + (blank + body) == blank + body;
    AtConcat(d, r1.cur, h.eol, blank + body);
    Assoc(h.eol, blank, body);
    AnnouncedByOne(h, r.contentLength);
    BlankLineRuns(d, r1, h.eol + blank, body);
  }

  predicate ReadyFor(d: string, r: Request, hs: seq<HeaderText>, blank: string, body: string) {
    && WellFormed(d, r) && r.state == HeaderKey
    && hs != [] && (forall h :: h in hs ==> ValidHeader(h)) && EndsHeaders(hs, blank)
    && At(d, r.cur, RenderHeaders(hs) + (blank + body))
    && r.cur + |RenderHeaders(hs)| + |blank| + |body| == |d|
  }

  function AtNextKey(r: Request, h: HeaderText): Request {
    AfterHeader(r, h).(cur := r.cur + |RenderHeader(h)|, state := HeaderKey)
  }

  lemma NextHeaderRuns(d: string, r: Request, hs: seq<HeaderText>, tail: string)
    requires WellFormed(d, r) && r.state == HeaderKey
    requires |hs| > 1 && ValidHeader(hs[0]) && !TooLong(hs[0]) && ValidHeader(hs[1])
    requires At(d, r.cur, RenderHeaders(hs) + tail)
    ensures WellFormed(d, AtNextKey(r, hs[0]))
    ensures At(d, AtNextKey(r, hs[0]).cur, RenderHeaders(hs[1..]) + tail)
    ensures Run(d, r) == Run(d, AtNextKey(r, hs[0]))
  {
    hide Run, Step;
    HeaderThenRest(d, r, hs, tail);
    var r1 := AfterHeader(r, hs[0]);
    FirstKeyChar(d, r1.cur + |hs[0].eol|, hs[1..], tail);
    OneLineBreak(d, r1, hs[0].eol);
    RenderCons(hs, "");
  }

  lemma NextReady(d: string, r: Request, hs: seq<HeaderText>, blank: string, body: string)
    requires ReadyFor(d, r, hs, blank, body) && |hs| > 1 && !TooLong(hs[0])
    ensures ReadyFor(d, AtNextKey(r, hs[0]), hs[1..], blank, body)
    ensures Run(d, r) == Run(d, AtNextKey(r, hs[0]))
  {
    hide Run, Step;
    assert hs[0] in hs && hs[1] in hs;
    NextHeaderRuns(d, r, hs, blank + body);
    RenderCons(hs, "");
  }

  lemma ParsesFromNext(d: string, r: Request, hs: seq<HeaderText>, blank: string, body: string)
    requires |hs| > 1 && !TooLong(hs[0]) && WellFormed(d, r) && WellFormed(d, AtNextKey(r, hs[0])) && |body| <= |d|
    requires Run(d, r) == Run(d, AtNextKey(r, hs[0])) && ParsesTo(d, AtNextKey(r, hs[0]), hs[1..], blank, body)
    ensures ParsesTo(d, r, hs, blank, body)
  {
    hide Run, Step, LeadingBreaks, TooLong, Atoi, MatchesName, Fields, At, AllIn;
    FieldsCons(hs, r.cur);
    assert hs[..1] == [hs[0]];
    Assoc(r.headers, Fields(hs[..1], r.cur), Fields(hs[1..], r.cur + |RenderHeader(hs[0])|));
    assert AnyTooLong(hs) <==> AnyTooLong(hs[1..]) by {
      if AnyTooLong(hs) {
        var i :| 0 <= i < |hs| && TooLong(hs[i]);
        assert TooLong(hs[1..][i - 1]);
      }
      if AnyTooLong(hs[1..]) {
        var i :| 0 <= i < |hs[1..]| && TooLong(hs[1..][i]);
        assert TooLong(hs[i + 1]);
      }
    }
  }

  /** Parse the rest of a rendered message, starting at a header key. */
  lemma {:induction false} HeadersRun(d: string, r: Request, hs: seq<HeaderText>, blank: string,
                                      body: string)
    requires ReadyFor(d, r, hs, blank, body)
    ensures |body| <= |d| && ParsesTo(d, r, hs, blank, body)
    decreases |hs|
  {
    hide Run, Step, TooLong, EndsBefore, AnnouncedLength;
    assert hs[0] in hs;
    if TooLong(hs[0]) {
      RenderCons(hs, blank + body);
      AtConcat(d, r.cur, RenderHeader(hs[0]), RenderHeaders(hs[1..]) + (blank + body));
      TooLongStops(d, r, hs[0]);
    } else if |hs| == 1 {
      assert hs == [hs[0]];
      LastHeader(d, r, hs[0], blank, body);
    } else {
      NextReady(d, r, hs, blank, body);
      HeadersRun(d, AtNextKey(r, hs[0]), hs[1..], blank, body);
      ParsesFromNext(d, r, hs, blank, body);
    }
  }

  lemma FirstKeyChar(d: string, i: nat, hs: seq<HeaderText>, tail: string)
    requires hs != [] && ValidHeader(hs[0])
    requires At(d, i, RenderHeaders(hs) + tail)
    ensures i < |d| && !IsBreak(d[i])
  {
    var h := hs[0];
    AtConcat(d, i, RenderHeaders(hs), tail);
    AtConcat(d, i, RenderHeader(h), RenderHeaders(hs[1..]));
    AtChar(d, i, RenderHeader(h), 0);
    if h.key == "" {
      assert RenderHeader(h)[0] == ':';
    } else {
      assert RenderHeader(h)[0] == h.key[0];
      assert InClass(h.key[0], KeySymbol);
    }
  }

  function AfterMethod(meth: string, gap: string): Request {
    PastMethod(Initial(), meth, gap)
  }

  function AfterTarget(r: Request, url: string, query: string): Request {
    var q := r.cur + |url|;
    r.(url := Field(r.cur, |url|),
       urlParameters := if query == "" then r.urlParameters else Field(q, |query|),
       cur := q + |query|,
       state := SpaceAfterUrl)
  }

  function AfterVersion(r: Request, version: string, eol: string): Request {
    r.(cur := r.cur + 1 + |version| + |eol|, state := HeaderKey)
  }

  function AfterRequestLine(m: Message): Request {
    AfterVersion(AfterTarget(AfterMethod(m.meth, m.gap), m.url, QueryText(m.query)), m.version, m.eol)
  }

  predicate IsQuery(q: string) {
    q == "" || (q[0] == '?' && AllIn(q, NotBlank))
  }

  /** The parser's state after the method and the blanks behind it. */
  function PastMethod(r: Request, meth: string, gap: string): Request {
    r.(meth := Field(0, |meth|), cur := |meth| + |gap|, state := Url)
  }

  function AtMethodEnd(r: Request, meth: string): Request {
    r.(meth := Field(0, |meth|), cur := |meth|, state := SpaceAfterMethod)
  }

  lemma MethodScanned(d: string, r: Request, meth: string, gap: string)
    requires WellFormed(d, r) && r.state == Method && r.cur == 0
    requires AllIn(meth, MethodSymbol) && At(d, 0, meth) && At(d, |meth|, gap)
    requires gap != "" && AllIn(gap, Blank)
    ensures WellFormed(d, AtMethodEnd(r, meth)) && Run(d, r) == Run(d, AtMethodEnd(r, meth))
  {
    hide Run, MatchesName, Atoi, LineFeeds, At, AllIn;
    FirstIn(gap, Blank);
    AtChar(d, |meth|, gap, 0);
    SpanAt(d, 0, meth, MethodSymbol);
    RunNext(d, r, AtMethodEnd(r, meth));
  }

  lemma BlankScanned(d: string, r: Request, gap: string, rest: string)
    requires WellFormed(d, r) && r.state == SpaceAfterMethod && At(d, r.cur, gap) && At(d, r.cur + |gap|, rest)
    requires AllIn(gap, Blank)
    requires rest != "" && !InClass(rest[0], Blank) && !IsBreak(rest[0])
    ensures WellFormed(d, r.(cur := r.cur + |gap|, state := Url))
    ensures Run(d, r) == Run(d, r.(cur := r.cur + |gap|, state := Url))
  {
    hide Run, MatchesName, Atoi, LineFeeds, At;
    AtChar(d, r.cur + |gap|, rest, 0);
    SpanAt(d, r.cur, gap, Blank);
    RunNext(d, r, r.(cur := r.cur + |gap|, state := Url));
  }

  lemma MethodRuns(d: string, r: Request, meth: string, gap: string, rest: string)
    requires WellFormed(d, r) && r.state == Method && r.cur == 0
    requires AllIn(meth, MethodSymbol) && At(d, 0, meth + (gap + rest))
    requires gap != "" && AllIn(gap, Blank)
    requires rest != "" && !InClass(rest[0], Blank) && !IsBreak(rest[0])
    ensures WellFormed(d, PastMethod(r, meth, gap)) && Run(d, r) == Run(d, PastMethod(r, meth, gap))
    ensures At(d, PastMethod(r, meth, gap).cur, rest)
  {
    hide Run, Step, At, WellFormed, AllIn;
    AtConcat(d, 0, meth, gap + rest);
    AtConcat(d, |meth|, gap, rest);
    MethodScanned(d, r, meth, gap);
    BlankScanned(d, AtMethodEnd(r, meth), gap, rest);
  }

  function AtQuestion(r: Request, url: string): Request {
    r.(url := Field(r.cur, |url|), cur := r.cur + |url|, state := UrlParameters)
  }

  lemma UrlToQuestion(d: string, r: Request, url: string, query: string)
    requires WellFormed(d, r) && r.state == Url && AllIn(url, UrlSymbol) && IsQuery(query) && query != ""
    requires At(d, r.cur, url) && At(d, r.cur + |url|, query)
    ensures WellFormed(d, AtQuestion(r, url)) && Run(d, r) == Run(d, AtQuestion(r, url))
  {
    AtChar(d, r.cur + |url|, query, 0);
    SpanAt(d, r.cur, url, UrlSymbol);
    RunNext(d, r, AtQuestion(r, url));
  }

  lemma QueryRuns(d: string, r: Request, query: string, rest: string)
    requires WellFormed(d, r) && r.state == UrlParameters && AllIn(query, NotBlank) && query != ""
    requires At(d, r.cur, query) && At(d, r.cur + |query|, rest) && rest != "" && rest[0] == ' '
    ensures var r' := r.(urlParameters := Field(r.cur, |query|), cur := r.cur + |query|, state := SpaceAfterUrl);
            WellFormed(d, r') && Run(d, r) == Run(d, r')
  {
    hide Run;
    AtChar(d, r.cur + |query|, rest, 0);
    SpanAt(d, r.cur, query, NotBlank);
    RunNext(d, r, r.(urlParameters := Field(r.cur, |query|), cur := r.cur + |query|, state := SpaceAfterUrl));
  }

  lemma UrlThenQuery(d: string, r: Request, url: string, query: string, rest: string)
    requires WellFormed(d, r) && r.state == Url && AllIn(url, UrlSymbol) && IsQuery(query) && query != ""
    requires At(d, r.cur, url) && At(d, r.cur + |url|, query) && At(d, r.cur + |url| + |query|, rest)
    requires rest != "" && rest[0] == ' '
    ensures var r' := AfterTarget(r, url, query); WellFormed(d, r') && Run(d, r) == Run(d, r')
  {
    hide Run, Step;
    UrlToQuestion(d, r, url, query);
    QueryRuns(d, AtQuestion(r, url), query, rest);
  }

  lemma UrlNoQuery(d: string, r: Request, url: string, rest: string)
    requires WellFormed(d, r) && r.state == Url && AllIn(url, UrlSymbol)
    requires At(d, r.cur, url) && At(d, r.cur + |url|, rest) && rest != "" && rest[0] == ' '
    ensures WellFormed(d, AfterTarget(r, url, "")) && Run(d, r) == Run(d, AfterTarget(r, url, ""))
  {
    AtChar(d, r.cur + |url|, rest, 0);
    SpanAt(d, r.cur, url, UrlSymbol);
    RunNext(d, r, AfterTarget(r, url, ""));
  }

  lemma UrlRuns(d: string, r: Request, url: string, query: string, rest: string)
    requires WellFormed(d, r) && r.state == Url && AllIn(url, UrlSymbol) && IsQuery(query)
    requires At(d, r.cur, url) && At(d, r.cur + |url|, query) && At(d, r.cur + |url| + |query|, rest)
    requires rest != "" && rest[0] == ' '
    ensures WellFormed(d, AfterTarget(r, url, query)) && Run(d, r) == Run(d, AfterTarget(r, url, query))
  {
    hide Run, Step;
    if query == "" {
      UrlNoQuery(d, r, url, rest);
    } else {
      UrlThenQuery(d, r, url, query, rest);
    }
  }

  lemma VersionRuns(d: string, r: Request, version: string, eol: string, rest: string)
    requires WellFormed(d, r) && r.state == SpaceAfterUrl && AllIn(version, NotBreak)
    requires EndsOneLine(eol)
    requires At(d, r.cur, (" " + version) + (eol + rest)) && rest != "" && !IsBreak(rest[0])
    ensures var r' := AfterVersion(r, version, eol);
            && WellFormed(d, r') && Run(d, r) == Run(d, r') && At(d, r'.cur, rest)
  {
    hide Run, MatchesName, Atoi, At, Span, LineFeeds;
    AtConcat(d, r.cur, " " + version, eol + rest);
    var e := r.cur + 1 + |version|;
    AtConcat(d, e, eol, rest);
    AtChar(d, e + |eol|, rest, 0);
    OneBreakAt(d, e, eol);
    SpanAt(d, r.cur, " " + version, NotBreak);
    RunNext(d, r, r.(cur := e + |eol|, state := HeaderKey));
  }

  lemma TailStart(m: Message)
    requires ValidMessage(m)
    ensures RenderTail(m) != "" && !IsBreak(RenderTail(m)[0])
  {
    assert m.headers[0] in m.headers;
    AtIndex(RenderTail(m), 0, RenderTail(m));
    FirstKeyChar(RenderTail(m), 0, m.headers, m.blank + m.body);
  }

  lemma TargetStart(m: Message)
    requires ValidMessage(m)
    ensures RenderTarget(m) != "" && !InClass(RenderTarget(m)[0], Blank) && !IsBreak(RenderTarget(m)[0])
  {
    assert RenderTarget(m)[0] == (m.url + QueryText(m.query))[0];
    if m.url != "" {
      assert InClass(m.url[0], UrlSymbol);
    }
  }

  lemma RenderLength(m: Message)
    ensures AfterRequestLine(m).cur + |RenderTail(m)| == |Render(m)|
  {
  }

  lemma WholeText(m: Message)
    ensures At(Render(m), 0, m.meth + (m.gap + RenderTarget(m)))
    ensures |Render(m)| == |m.meth| + |m.gap| + |RenderTarget(m)|
  {
    AtIndex(Render(m), 0, Render(m));
  }

  lemma MethodPart(d: string, m: Message)
    requires ValidMessage(m) && d == Render(m)
    ensures WellFormed(d, AfterMethod(m.meth, m.gap)) && Run(d, Initial()) == Run(d, AfterMethod(m.meth, m.gap))
    ensures At(d, AfterMethod(m.meth, m.gap).cur, RenderTarget(m))
  {
    hide Run, Step, Initial, Render, PastMethod, At, RenderTarget;
    TargetStart(m);
    WholeText(m);
    InitialFits(d);
    MethodRuns(d, Initial(), m.meth, m.gap, RenderTarget(m));
  }

  lemma TargetParts(d: string, i: nat, m: Message)
    requires At(d, i, RenderTarget(m))
    ensures At(d, i, m.url) && At(d, i + |m.url|, QueryText(m.query))
    ensures At(d, i + |m.url| + |QueryText(m.query)|, RenderAfterTarget(m))
  {
    hide At;
    AtConcat(d, i, m.url, QueryText(m.query) + RenderAfterTarget(m));
    AtConcat(d, i + |m.url|, QueryText(m.query), RenderAfterTarget(m));
  }

  lemma AfterTargetStart(m: Message)
    requires m.query.Query? ==> AllIn(m.query.text, NotBlank)
    ensures IsQuery(QueryText(m.query))
    ensures RenderAfterTarget(m) != "" && RenderAfterTarget(m)[0] == ' '
  {
  }

  lemma TargetPart(d: string, r: Request, m: Message)
    requires ValidMessage(m) && WellFormed(d, r) && r.state == Url && At(d, r.cur, RenderTarget(m))
    ensures var r' := AfterTarget(r, m.url, QueryText(m.query));
            && WellFormed(d, r') && Run(d, r) == Run(d, r') && At(d, r'.cur, RenderAfterTarget(m))
  {
    hide Run, Step, At, AllIn, Atoi, MatchesName, Span, RenderAfterTarget;
    TargetParts(d, r.cur, m);
    AfterTargetStart(m);
    UrlRuns(d, r, m.url, QueryText(m.query), RenderAfterTarget(m));
  }

  lemma VersionPart(d: string, r: Request, m: Message)
    requires ValidMessage(m) && WellFormed(d, r) && r.state == SpaceAfterUrl
    requires At(d, r.cur, RenderAfterTarget(m))
    ensures var r' := AfterVersion(r, m.version, m.eol);
            && WellFormed(d, r') && Run(d, r) == Run(d, r') && At(d, r'.cur, RenderTail(m))
  {
    hide Run, Step;
    TailStart(m);
    VersionRuns(d, r, m.version, m.eol, RenderTail(m));
  }

  lemma TargetAndVersion(d: string, r: Request, m: Message)
    requires ValidMessage(m) && WellFormed(d, r) && r.state == Url && At(d, r.cur, RenderTarget(m))
    ensures var r3 := AfterVersion(AfterTarget(r, m.url, QueryText(m.query)), m.version, m.eol);
            && WellFormed(d, r3) && Run(d, r) == Run(d, r3) && At(d, r3.cur, RenderTail(m))
  {
    hide Run, Step;
    TargetPart(d, r, m);
    VersionPart(d, AfterTarget(r, m.url, QueryText(m.query)), m);
  }

  lemma LineRuns(d: string, m: Message)
    requires ValidMessage(m) && d == Render(m)
    ensures var r := AfterRequestLine(m);
            && WellFormed(d, r) && Run(d, Initial()) == Run(d, r) && At(d, r.cur, RenderTail(m))
  {
    hide Run, Step;
    MethodPart(d, m);
    TargetAndVersion(d, AfterMethod(m.meth, m.gap), m);
  }

  lemma RequestLineRuns(m: Message)
    requires ValidMessage(m)
    ensures ReadyFor(Render(m), AfterRequestLine(m), m.headers, m.blank, m.body)
    ensures Run(Render(m), Initial()) == Run(Render(m), AfterRequestLine(m))
  {
    hide Run, Step;
    LineRuns(Render(m), m);
    RenderLength(m);
  }

  /** Every header the parser recorded is the header that was rendered. */
  lemma {:induction false} FieldsAreHeaders(d: string, hs: seq<HeaderText>, at: nat, tail: string, i: nat)
    requires At(d, at, RenderHeaders(hs) + tail) && i < |hs|
    ensures var f := Fields(hs, at)[i];
            && f.key.End() <= |d| && Slice(d, f.key) == hs[i].key
            && f.value.End() <= |d| && Slice(d, f.value) == hs[i].value
  {
    hide At, Slice, RenderHeader, RenderHeaders;
    RenderCons(hs, tail);
    var h := hs[0];
    AtConcat(d, at, RenderHeader(h), RenderHeaders(hs[1..]) + tail);
    if i == 0 {
      FirstIsHeader(d, h, at);
    } else {
      FieldsAreHeaders(d, hs[1..], at + |RenderHeader(h)|, tail, i - 1);
    }
  }

  lemma FirstIsHeader(d: string, h: HeaderText, at: nat)
    requires At(d, at, RenderHeader(h))
    ensures var key, value := Field(at, |h.key|), Field(at + |h.key| + |h.sep|, |h.value|);
            && key.End() <= |d| && Slice(d, key) == h.key && value.End() <= |d| && Slice(d, value) == h.value
  {
    hide At, Slice;
    AtConcat(d, at, h.key, h.sep + (h.value + h.eol));
    AtConcat(d, at + |h.key|, h.sep, h.value + h.eol);
    AtConcat(d, at + |h.key| + |h.sep|, h.value, h.eol);
    AtSlice(d, at, h.key);
    AtSlice(d, at + |h.key| + |h.sep|, h.value);
  }

  lemma AtSlice(d: string, i: nat, s: string)
    requires At(d, i, s)
    ensures i + |s| <= |d| && Slice(d, Field(i, |s|)) == s
  {
    AtIndex(d, i, s);
  }

  lemma HeaderParts(m: Message)
    requires ValidMessage(m)
    ensures forall i :: 0 <= i < |m.headers| ==>
              var f := Fields(m.headers, AfterRequestLine(m).cur)[i];
              && f.key.End() <= |Render(m)| && Slice(Render(m), f.key) == m.headers[i].key
              && f.value.End() <= |Render(m)| && Slice(Render(m), f.value) == m.headers[i].value
    ensures |m.body| <= |Render(m)| && Render(m)[|Render(m)| - |m.body|..] == m.body
  {
    hide Run, Step, At, Fields, ValidHeader, AnnouncedLength, AfterRequestLine, Render, Initial, RenderHeaders;
    var d, r0 := Render(m), AfterRequestLine(m);
    RequestLineRuns(m);
    forall i | 0 <= i < |m.headers|
      ensures var f := Fields(m.headers, r0.cur)[i];
              && f.key.End() <= |d| && Slice(d, f.key) == m.headers[i].key
              && f.value.End() <= |d| && Slice(d, f.value) == m.headers[i].value
    {
      FieldsAreHeaders(d, m.headers, r0.cur, m.blank + m.body, i);
    }
    AtConcat(d, r0.cur, RenderHeaders(m.headers), m.blank + m.body);
    AtConcat(d, r0.cur + |RenderHeaders(m.headers)|, m.blank, m.body);
    AtIndex(d, |d| - |m.body|, m.body);
  }

  /** Every recorded slice of `r` is the part of the message it stands for. */
  ghost predicate Recovers(d: string, r: Request, m: Message) {
    && r.meth.End() <= |d| && Slice(d, r.meth) == m.meth
    && r.url.End() <= |d| && Slice(d, r.url) == m.url
    && r.urlParameters.End() <= |d| && Slice(d, r.urlParameters) == QueryText(m.query)
    && |r.headers| == |m.headers|
    && (forall i :: 0 <= i < |m.headers| ==>
          && r.headers[i].key.End() <= |d| && Slice(d, r.headers[i].key) == m.headers[i].key
          && r.headers[i].value.End() <= |d| && Slice(d, r.headers[i].value) == m.headers[i].value)
    && r.contentLength == |m.body| <= |d|
    && (m.body != "" ==> r.contentStart == |d| - |m.body| && d[r.contentStart..] == m.body)
  }

  lemma PartsRecovered(m: Message, r: Request)
    requires ValidMessage(m)
    requires var r0 := AfterRequestLine(m);
             r.meth == r0.meth && r.url == r0.url && r.urlParameters == r0.urlParameters
    requires r.headers == Fields(m.headers, AfterRequestLine(m).cur)
    requires r.contentLength == |m.body| <= |Render(m)|
    requires m.body != "" ==> r.contentStart == |Render(m)| - |m.body|
    ensures Recovers(Render(m), r, m)
  {
    hide At, AllIn, Render, AfterRequestLine, Fields, RenderHeader, AnnouncedLength, RfcLength;
    RequestLineParts(m);
    HeaderParts(m);
  }

  lemma NoHeadersBefore(m: Message)
    ensures AfterRequestLine(m).headers == [] && AfterRequestLine(m).contentLength == 0
  {
  }

  /** How the parse of a valid message ends, from its headers and its body. */
  function Verdict(m: Message): ParseResult {
    var announced := AnnouncedLength(m.headers, 0);
    if AnyTooLong(m.headers) then FinishInvalid
    else if announced == 0 || LeadingBreaks(m.body) + announced <= |m.body| then FinishOk
    else NeedMoreData
  }

  lemma ParseEnds(m: Message)
    requires ValidMessage(m)
    ensures var d, o := Render(m), Run(Render(m), Initial());
            && o.Returned? && o.result == Verdict(m) && |m.body| <= |d|
            && (!AnyTooLong(m.headers) ==>
                  EndsBefore(d, AfterRequestLine(m), Fields(m.headers, AfterRequestLine(m).cur),
                             |HeadEnd(m.headers, m.blank)|, m.body, AnnouncedLength(m.headers, 0), o))
  {
    hide Run, Step, AnyTooLong, AnnouncedLength, LeadingBreaks, At, AfterRequestLine, Initial, Render, RenderHeaders,
         Fields;
    var d, r0 := Render(m), AfterRequestLine(m);
    RequestLineRuns(m);
    NoHeadersBefore(m);
    HeadersRun(d, r0, m.headers, m.blank, m.body);
    assert r0.headers + Fields(m.headers, r0.cur) == Fields(m.headers, r0.cur);
  }

  /** Parse after render, exactly. For every valid message whose Content-Length is that of its body, the result is
      finishOk and every part of the message is recovered, if and only if the parser sees the same body length
      and the body does not start with a line break. */
  lemma ParseRender(m: Message)
    requires ValidMessage(m) && Complete(m)
    ensures var o := Run(Render(m), Initial());
            && o.Returned? && o.result == Verdict(m)
            && (o.result == FinishOk && Recovers(Render(m), o.request, m) <==> Understood(m))
  {
    hide Run, Step, AnyTooLong, Misled, AnnouncedLength, RfcLength, ValidMessage, Render, Recovers, Verdict, Understood,
         EndsBefore, Complete, Initial;
    InitialFits(Render(m));
    ParseEnds(m);
    if Understood(m) {
      UnderstoodIsRecovered(m, Run(Render(m), Initial()));
    } else {
      OthersAreNot(m, Run(Render(m), Initial()));
    }
  }

  lemma UnderstoodIsRecovered(m: Message, o: RunResult)
    requires ValidMessage(m) && Complete(m) && Understood(m) && o == Run(Render(m), Initial())
    ensures o.Returned? && o.result == FinishOk && Recovers(Render(m), o.request, m)
  {
    hide Run, Step, AnyTooLong, Misled, AnnouncedLength, RfcLength, Recovers, ValidMessage, Render, AfterRequestLine,
         Fields, LeadingBreaks, StartsWithBreak;
    ParseEnds(m);
    AnnouncedExactly(m.headers);
    NoLeadingBreak(m.body);
    PartsRecovered(m, o.request);
  }

  lemma OthersAreNot(m: Message, o: RunResult)
    requires ValidMessage(m) && Complete(m) && !Understood(m) && o == Run(Render(m), Initial())
    ensures o.Returned? && !(o.result == FinishOk && Recovers(Render(m), o.request, m))
  {
    hide Run, Step, AnyTooLong, Misled, AnnouncedLength, RfcLength, Recovers, ValidMessage, Render, AfterRequestLine,
         Fields, LeadingBreaks, StartsWithBreak;
    ParseEnds(m);
    AnnouncedExactly(m.headers);
    NoLeadingBreak(m.body);
    RecoversLength(Render(m), o.request, m);
  }

  lemma RecoversLength(d: string, r: Request, m: Message)
    ensures Recovers(d, r, m) ==> r.contentLength == |m.body|
  {
  }

  /** Line breaks at the start of the body are skipped, and then as many bytes are missing at its end. */
  lemma BreaksWait(m: Message)
    requires ValidMessage(m) && Complete(m) && HeadersUnderstood(m.headers) && StartsWithBreak(m.body)
    ensures Run(Render(m), Initial()).Returned? && Run(Render(m), Initial()).result == NeedMoreData
  {
    hide Run, Step, AnyTooLong, Misled, AnnouncedLength, RfcLength, ValidMessage, Render, LeadingBreaks,
         StartsWithBreak,
         EndsBefore, Initial;
    ParseEnds(m);
    AnnouncedExactly(m.headers);
    NoLeadingBreak(m.body);
  }

  lemma NoLeadingBreak(body: string)
    ensures LeadingBreaks(body) > 0 <==> StartsWithBreak(body)
  {
  }

  /** A body whose length stands in decimal in the last header that is taken for it, under the very name: the message is
      parsed back with that body, unless some length is too long or the body starts with a line break. */
  lemma NumberedBodyIsParsed(m: Message, i: nat)
    requires ValidMessage(m) && LastTaken(m.headers, i) && Named(m.headers[i])
    requires IsNumber(m.headers[i].value) && Value(m.headers[i].value) == |m.body|
    ensures Complete(m)
    ensures var o := Run(Render(m), Initial());
            && o.Returned?
            && (o.result == FinishOk && Recovers(Render(m), o.request, m) <==>
                  !AnyTooLong(m.headers) && !StartsWithBreak(m.body))
  {
    hide Run, Step, Render, Recovers, ValidMessage, AnyTooLong, LastTaken, Named, RfcLength, Misled, Initial, Verdict;
    NumberAnnounced(m.headers, i);
    InitialFits(Render(m));
    ParseRender(m);
  }

  /** One header is taken for the length of the body, and it is named so and holds that length in decimal. */
  predicate SaysLength(m: Message, i: nat) {
    && i < |m.headers| && Named(m.headers[i]) && m.headers[i].value == Decimal(|m.body|)
    && forall j :: 0 <= j < |m.headers| && Taken(m.headers[j]) ==> j == i
  }

  /** Such a message is parsed back exactly if its length has at most 30 digits and the body starts with no line
      break. */
  lemma DecimalBodyIsParsed(m: Message, i: nat)
    requires ValidMessage(m) && SaysLength(m, i)
    ensures Complete(m) && (HeadersUnderstood(m.headers) <==> |m.body| < Pow10(MAX_LENGTH_CHARS))
    ensures var o := Run(Render(m), Initial());
            && o.Returned?
            && (o.result == FinishOk && Recovers(Render(m), o.request, m) <==>
                  |m.body| < Pow10(MAX_LENGTH_CHARS) && !StartsWithBreak(m.body))
  {
    hide Run, Step, Render, Recovers, ValidMessage, RfcLength, Misled, Initial, Verdict, Pow10, Decimal, Value;
    ValueOfDecimal(|m.body|);
    DecimalLength(|m.body|, MAX_LENGTH_CHARS);
    assert Taken(m.headers[i]) && (AnyTooLong(m.headers) <==> TooLong(m.headers[i]));
    NumberAnnounced(m.headers, i);
    NumberedBodyIsParsed(m, i);
  }

  /** The request line, and behind it the empty line that ends the headers. */
  predicate Headerless(m: Message) {
    && AllIn(m.meth, MethodSymbol) && m.gap != "" && AllIn(m.gap, Blank) && AllIn(m.url, UrlSymbol)
    && (m.query.Query? ==> AllIn(m.query.text, NotBlank)) && m.url + QueryText(m.query) != ""
    && AllIn(m.version, NotBreak)
    && m.headers == [] && AllIn(m.eol, Break) && Feeds(m.eol) > 1
  }

  lemma EmptyLineStops(d: string, r: Request, version: string, end: string, rest: string)
    requires WellFormed(d, r) && r.state == SpaceAfterUrl && AllIn(version, NotBreak)
    requires AllIn(end, Break) && Feeds(end) > 1 && At(d, r.cur, (" " + version) + (end + rest))
    ensures Run(d, r).Returned? && Run(d, r).result == FinishInvalid
  {
    hide Run, MatchesName, Atoi, At, Span, LineFeeds;
    AtConcat(d, r.cur, " " + version, end + rest);
    var i := r.cur + 1 + |version|;
    AtConcat(d, i, end, rest);
    FeedsAt(d, i, end);
    BreaksAt(d, i, end);
    assert end != "" by {
      hide AllIn;
      assert Feeds("") == 0;
    }
    assert InClass(d[i], Break);
    SpanAt(d, r.cur, " " + version, NotBreak);
    SpanThrough(d, i, i + |end|, Break);
    LineFeedsExtend(d, d, i, i + |end|, Span(d, i, Break));
    RunStops(d, r);
  }

  /** A request without headers is refused, whatever follows. */
  lemma HeaderlessIsRefused(m: Message)
    requires Headerless(m)
    ensures Run(Render(m), Initial()).Returned? && Run(Render(m), Initial()).result == FinishInvalid
  {
    hide Run, Step, At, AllIn, Feeds, Initial, Render, RenderTarget, RenderAfterTarget;
    var d := Render(m);
    InitialFits(d);
    WholeText(m);
    HeaderlessTarget(m);
    MethodRuns(d, Initial(), m.meth, m.gap, RenderTarget(m));
    HeaderlessLine(d, PastMethod(Initial(), m.meth, m.gap), m);
  }

  lemma HeaderlessTarget(m: Message)
    requires Headerless(m)
    ensures RenderTarget(m) != "" && !InClass(RenderTarget(m)[0], Blank) && !IsBreak(RenderTarget(m)[0])
  {
    assert RenderTarget(m)[0] == (m.url + QueryText(m.query))[0];
    if m.url != "" {
      FirstIn(m.url, UrlSymbol);
    }
  }

  lemma HeaderlessLine(d: string, r: Request, m: Message)
    requires Headerless(m) && WellFormed(d, r) && r.state == Url && At(d, r.cur, RenderTarget(m))
    ensures Run(d, r).Returned? && Run(d, r).result == FinishInvalid
  {
    hide Run, Step, At, AllIn, Feeds, RenderTarget;
    TargetParts(d, r.cur, m);
    AfterTargetStart(m);
    UrlRuns(d, r, m.url, QueryText(m.query), RenderAfterTarget(m));
    EmptyLineStops(d, AfterTarget(r, m.url, QueryText(m.query)), m.version, m.eol, RenderTail(m));
  }

  /** A header without a value is refused, wherever it stands. */
  lemma EmptyValueStops(d: string, r: Request, key: string, sep: string, eol: string)
    requires WellFormed(d, r) && r.state == HeaderKey && AllIn(key, KeySymbol)
    requires sep != "" && sep[0] == ':' && AllIn(sep, Separator) && eol != "" && IsBreak(eol[0])
    requires At(d, r.cur, key + (sep + eol))
    ensures Run(d, r).Returned? && Run(d, r).result == FinishInvalid
  {
    hide Run, Step, At, AllIn, Span;
    AtConcat(d, r.cur, key, sep + eol);
    AtConcat(d, r.cur + |key|, sep, eol);
    var r1 := r.(curKey := Field(r.cur, |key|), cur := r.cur + |key|, state := HeaderSpace);
    AtChar(d, r1.cur, sep, 0);
    KeyScanned(d, r, key, sep);
    RunNext(d, r, r1);
    NothingToScan(d, r1, sep, eol);
    RunStops(d, r1);
  }

  lemma NothingToScan(d: string, r: Request, sep: string, eol: string)
    requires WellFormed(d, r) && r.state == HeaderSpace && AllIn(sep, Separator) && eol != "" && IsBreak(eol[0])
    requires At(d, r.cur, sep) && At(d, r.cur + |sep|, eol)
    ensures Step(d, r) == Stop(FinishInvalid, r)
  {
    hide MatchesName, Atoi, LineFeeds, Run, At, AllIn, Span;
    AtChar(d, r.cur + |sep|, eol, 0);
    SpanAt(d, r.cur, sep, Separator);
  }

  /** An abbreviated header that announces more than the body has: the parser waits for bytes that the client never
      sends, and parsing what is there again changes nothing. */
  lemma MisledForEver()
    ensures var m := Message("POST", " ", "/", NoQuery, "HTTP/1.1", "\r\n",
                             [HeaderText("Content-Length", ": ", "3", "\r\n"), HeaderText("C", ": ", "7", "\r\n")],
                             "\r\n", "abc");
            && ValidMessage(m) && Complete(m) && Misled(m.headers) && WaitsForEver(Render(m))
  {
    hide WaitsForEver, Render, Run, Step, Verdict;
    var length, other := HeaderText("Content-Length", ": ", "3", "\r\n"), HeaderText("C", ": ", "7", "\r\n");
    var m := Message("POST", " ", "/", NoQuery, "HTTP/1.1", "\r\n", [length, other], "\r\n", "abc");
    TwoLengths(length, other);
    CrLf();
    assert ValidMessage(m) by {
      hide AnnouncedLength, RfcLength, Misled, AnyTooLong, ValidHeader, EndsOneLine, Feeds;
    }
    MisledVerdict(m);
    WaitingStays(m);
  }

  /** Lines that end with CR LF. */
  lemma CrLf()
    ensures EndsOneLine("\r\n") && "\r\n" + "\r\n" == "\r\n\r\n"
    ensures AllIn("\r\n\r\n", Break) && Feeds("\r\n\r\n") == 2 && Feeds("\r\n\r\n"[..3]) == 1
  {
    var e := "\r\n\r\n";
    assert LineFeeds("\r\n", 0, 1) == 0 && LineFeeds("\r\n", 0, 2) == 1;
    assert LineFeeds(e, 0, 1) == 0 && LineFeeds(e, 0, 2) == 1 && LineFeeds(e, 0, 3) == 1 && LineFeeds(e, 0, 4) == 2;
    LineFeedsExtend(e[..3], e, 0, 3, 3);
  }

  /** The parser asks for more bytes, and asks again when it is called again with the same bytes. */
  predicate WaitsForEver(d: string) {
    InitialFits(d);
    var o := Run(d, Initial());
    && o.Returned? && o.result == NeedMoreData
    && WellFormed(d, o.request) && Run(d, o.request) == o
  }

  lemma WaitingStays(m: Message)
    requires ValidMessage(m) && Verdict(m) == NeedMoreData
    ensures WaitsForEver(Render(m))
  {
    hide Run, Step, Render, Initial, Verdict, ValidMessage, EndsBefore;
    ParseEnds(m);
    InitialFits(Render(m));
    NeedMoreIsStable(Render(m), Initial());
  }

  lemma MisledVerdict(m: Message)
    requires m.body == "abc" && AnnouncedLength(m.headers, 0) == 7 && !AnyTooLong(m.headers)
    ensures Verdict(m) == NeedMoreData
  {
    hide AnnouncedLength, AnyTooLong;
  }

  lemma TwoLengths(length: HeaderText, other: HeaderText)
    requires length == HeaderText("Content-Length", ": ", "3", "\r\n") && other == HeaderText("C", ": ", "7", "\r\n")
    ensures ValidHeader(length) && ValidHeader(other) && !AnyTooLong([length, other])
    ensures RfcLength([length, other], 0) == 3 && AnnouncedLength([length, other], 0) == 7
    ensures Misled([length, other])
  {
    CrLf();
    hide EndsOneLine, Feeds;
    assert Named(length) && Taken(other) && !Named(other);
    assert [length, other][1..] == [other] && [other][1..] == [];
    assert "3"[..0] == "" && "7"[..0] == "" && Value("3") == 3 && Value("7") == 7;
    NumberIsRead("3");
    NumberIsRead("7");
    assert RfcLength([length, other], 0) == RfcLength([other], 3) == RfcLength([], 3);
    assert AnnouncedLength([length, other], 0) == AnnouncedLength([other], 3) == AnnouncedLength([], 7);
    AnnouncedExactly([length, other]);
  }

  lemma RenderIsText(m: Message)
    ensures Render(m) != ""
  {
  }

  /** The text ends with these line breaks behind another character. */
  predicate EndsLine(s: string, eol: string) {
    |s| > |eol| && !IsBreak(s[|s| - |eol| - 1]) && s[|s| - |eol|..] == eol
  }

  lemma HeaderEndsLine(h: HeaderText)
    requires ValidHeader(h)
    ensures EndsLine(RenderHeader(h), h.eol)
  {
    var one, v := RenderHeader(h), h.value;
    assert InClass(v[|v| - 1], NotBreak);
    assert one == (h.key + (h.sep + h.value)) + h.eol;
    assert one[|one| - |h.eol| - 1] == v[|v| - 1];
  }

  lemma {:induction false} HeadersEnd(hs: seq<HeaderText>)
    requires hs != [] && forall h :: h in hs ==> ValidHeader(h)
    ensures EndsLine(RenderHeaders(hs), hs[|hs| - 1].eol)
  {
    hide RenderHeader, ValidHeader;
    var one, rest := RenderHeader(hs[0]), RenderHeaders(hs[1..]);
    assert hs[0] in hs;
    HeaderEndsLine(hs[0]);
    if |hs| == 1 {
      assert RenderHeaders(hs) == one;
    } else {
      HeadersEnd(hs[1..]);
      assert RenderHeaders(hs)[|one|..] == rest;
    }
  }

  /** What stands in front of the body from `i` on: the line breaks that end the headers, behind another character. */
  predicate BlankLineBefore(d: string, i: nat, h: nat) {
    && 1 <= i <= h <= |d| && !IsBreak(d[i - 1])
    && (forall x :: i <= x < h ==> InClass(d[x], Break)) && LineFeeds(d, i, h) > 1
  }

  /** Its second line feed is its end. */
  predicate TightlyBefore(d: string, i: nat, h: nat) {
    BlankLineBefore(d, i, h) && LineFeeds(d, i, h - 1) <= 1
  }

  lemma HeadEnds(m: Message)
    requires ValidMessage(m)
    ensures var h, e := |Render(m)| - |m.body|, |HeadEnd(m.headers, m.blank)|;
            && e <= h && BlankLineBefore(Render(m), h - e, h)
            && (Tight(m) ==> TightlyBefore(Render(m), h - e, h))
  {
    hide Run, Step, At, ValidMessage, Initial, AfterRequestLine, RenderHeaders, Render;
    LineRuns(Render(m), m);
    RenderLength(m);
    AllValid(m);
    HeadersEnd(m.headers);
    var d, at, hs := Render(m), AfterRequestLine(m).cur, RenderHeaders(m.headers);
    var last, e := m.headers[|m.headers| - 1].eol, HeadEnd(m.headers, m.blank);
    AtConcat(d, at, hs, m.blank + m.body);
    AtConcat(d, at + |hs|, m.blank, m.body);
    var front := hs[..|hs| - |last|];
    assert hs == front + last;
    AtConcat(d, at, front, last);
    AtConcat(d, at + |front|, last, m.blank);
    AtChar(d, at, front, |front| - 1);
    BreaksBefore(d, at + |front|, e);
  }

  lemma BreaksBefore(d: string, i: nat, e: string)
    requires At(d, i, e) && AllIn(e, Break) && Feeds(e) > 1 && 1 <= i <= |d| && !IsBreak(d[i - 1])
    ensures i + |e| <= |d| && BlankLineBefore(d, i, i + |e|)
    ensures e != "" && (Feeds(e[..|e| - 1]) <= 1 ==> TightlyBefore(d, i, i + |e|))
  {
    hide At, AllIn;
    BreaksAt(d, i, e);
    FeedsAt(d, i, e);
    var front := e[..|e| - 1];
    assert e == front + [e[|e| - 1]];
    AtConcat(d, i, front, [e[|e| - 1]]);
    FeedsAt(d, i, front);
  }

  lemma AllValid(m: Message)
    requires ValidMessage(m)
    ensures m.headers != [] && (forall h :: h in m.headers ==> ValidHeader(h)) && EndsHeaders(m.headers, m.blank)
  {
  }

  /** The part of a message in front of its body. */
  function Head(m: Message): string {
    Render(m.(body := ""))
  }

  lemma HeadIsPrefix(m: Message)
    ensures Render(m) == Head(m) + m.body
  {
    var h := m.(body := "");
    assert RenderTail(m) == RenderTail(h) + m.body;
    assert RenderAfterTarget(m) == RenderAfterTarget(h) + m.body;
    assert RenderTarget(m) == RenderTarget(h) + m.body;
  }

  /** The parser has seen the blank line and waits for a body of this length. */
  predicate Awaits(d: string, o: RunResult, announced: int) {
    && o.Returned? && o.result == NeedMoreData
    && o.request.state == Content && o.request.cur == |d| && o.request.contentLength == announced
  }

  lemma HeadAwaits(m: Message)
    requires ValidMessage(m) && Complete(m) && HeadersUnderstood(m.headers) && m.body != ""
    ensures Awaits(Head(m), Run(Head(m), Initial()), |m.body|)
  {
    hide Run, Step, AnyTooLong, Misled, AnnouncedLength, RfcLength, Render;
    ParseEnds(m.(body := ""));
    AnnouncedExactly(m.headers);
  }

  lemma RequestLineParts(m: Message)
    ensures var d, r := Render(m), AfterRequestLine(m);
            && r.meth.End() <= |d| && Slice(d, r.meth) == m.meth
            && r.url.End() <= |d| && Slice(d, r.url) == m.url
            && r.urlParameters.End() <= |d| && Slice(d, r.urlParameters) == QueryText(m.query)
  {
    ThreeParts(m.meth, m.gap, m.url, QueryText(m.query), RenderAfterTarget(m));
  }

  lemma ThreeParts(meth: string, gap: string, url: string, query: string, rest: string)
    ensures var d := meth + (gap + (url + (query + rest)));
            var u := |meth| + |gap|;
            && u + |url| + |query| <= |d|
            && d[0..|meth|] == meth && d[u..u + |url|] == url
            && d[u + |url|..u + |url| + |query|] == query
  {
    hide At;
    var d := meth + (gap + (url + (query + rest)));
    AtIndex(d, 0, d);
    AtConcat(d, 0, meth, gap + (url + (query + rest)));
    AtConcat(d, |meth|, gap, url + (query + rest));
    AtConcat(d, |meth| + |gap|, url, query + rest);
    AtConcat(d, |meth| + |gap| + |url|, query, rest);
    AtIndex(d, 0, meth);
    AtIndex(d, |meth| + |gap|, url);
    AtIndex(d, |meth| + |gap| + |url|, query);
  }
}
