/** The request parser as the object it is: fields updated in place, one method per scanner,
    re-entered with longer and longer prefixes of the same bytes (src/HttpRequest.h, src/HttpRequest.cpp). */
module HttpRequestObject {
  import opened HttpSyntax
  import opened HttpMachine
  import opened HttpNames
  import CString
  import UrlCodec
  import UrlPrefix

  datatype ParseAnswer = Answer(result: ParseResult) | Hangs

  datatype HeaderValueAnswer = NotFound | Found(value: string)

  /** Recorded offsets never leave the received bytes. */
  predicate InRange(d: string, r: Request) {
    && r.url.End() <= |d|
    && forall i :: 0 <= i < |r.headers| ==>
         r.headers[i].key.End() <= |d| && r.headers[i].value.End() <= |d|
  }

  lemma StepInRange(d: string, r: Request)
    requires WellFormed(d, r) && InRange(d, r)
    ensures InRange(d, Step(d, r).request)
  {
    hide Atoi, MatchesName, LineFeeds, Run, InClass;
    StepBounds(d, r);
  }

  lemma {:induction false} RunInRange(d: string, r: Request)
    requires WellFormed(d, r) && InRange(d, r)
    ensures Run(d, r).Returned? ==> InRange(d, Run(d, r).request)
    decreases |d| - r.cur, Rank(r.state)
  {
    hide Step;
    StepProgress(d, r);
    StepInRange(d, r);
    if Step(d, r).Next? && Step(d, r).request != r {
      RunInRange(d, Step(d, r).request);
    }
  }

  /** What the decoded URL must be for a parsed request to be accepted. */
  function AcceptedUrl(url: string): UrlCodec.Decoded {
    var t := UrlCodec.Decode(url);
    if url == "" || t.BadTriplet? || !UrlCodec.UrlAllowed(CString.UpToNul(t.text))
    then UrlCodec.BadTriplet
    else UrlCodec.Plain(CString.UpToNul(t.text))
  }

  /** `buffer` holds the NUL-terminated output of the decoder. */
  ghost predicate Holds(buffer: seq<char>, t: string) {
    |t| < |buffer| && buffer[..|t|] == t && buffer[|t|] == CString.NUL
  }

  /** The decoder's next output byte and how many source bytes it takes. */
  lemma DecodeUnfolds(src: string, si: nat)
    requires si < |src| && src[si] != CString.NUL
    ensures UrlCodec.Decode(src[si..]) ==
            if src[si] == '%' && si + 2 < |src| then
              if UrlCodec.HexValue(src[si + 1]) < 0 || UrlCodec.HexValue(src[si + 2]) < 0 then UrlCodec.BadTriplet
              else
                UrlCodec.HexValueIsHex(src[si + 1]);
                UrlCodec.HexValueIsHex(src[si + 2]);
                UrlCodec.Prepend(UrlCodec.HexByte(src[si + 1], src[si + 2]), UrlCodec.Decode(src[si + 3..]))
            else UrlCodec.Prepend(src[si], UrlCodec.Decode(src[si + 1..]))
  {
    if src[si] == '%' && si + 2 < |src| {
      assert src[si..][3..] == src[si + 3..];
    } else {
      assert src[si..][1..] == src[si + 1..];
    }
  }

  /** `all` is what decoding gives if `done` has been written and `rest` is still to be decoded. */
  ghost predicate Continues(all: UrlCodec.Decoded, done: string, rest: UrlCodec.Decoded) {
    all == match rest
           case BadTriplet => UrlCodec.BadTriplet
           case Plain(text) => UrlCodec.Plain(done + text)
  }

  lemma ContinuesNext(all: UrlCodec.Decoded, done: string, c: char, rest: UrlCodec.Decoded)
    requires Continues(all, done, UrlCodec.Prepend(c, rest))
    ensures Continues(all, done + [c], rest)
  {
    if rest.Plain? {
      assert done + ([c] + rest.text) == (done + [c]) + rest.text;
    }
  }

  method PercentDecode(src: string, dst: array<char>) returns (ok: bool)
    requires |src| < dst.Length
    modifies dst
    ensures ok <==> UrlCodec.Decode(src).Plain?
    ensures ok ==> Holds(dst[..], UrlCodec.Decode(src).text)
  {
    hide UrlCodec.Decode, UrlCodec.HexValue;
    var si, di := 0, 0;
    ghost var all := UrlCodec.Decode(src);
    assert src[0..] == src;
    while si < |src| && src[si] != CString.NUL
      invariant di <= si <= |src|
      invariant Continues(all, dst[..di], UrlCodec.Decode(src[si..]))
      decreases |src| - si
    {
      ghost var done := dst[..di];
      DecodeUnfolds(src, si);
      if src[si] == '%' && si + 2 < |src| {
        var v1 := UrlCodec.HexValue(src[si + 1]);
        if v1 < 0 {
          return false;
        }
        var v2 := UrlCodec.HexValue(src[si + 2]);
        if v2 < 0 {
          return false;
        }
        UrlCodec.HexValueIsHex(src[si + 1]);
        UrlCodec.HexValueIsHex(src[si + 2]);
        dst[di] := (16 * v1 + v2) as char;
        si := si + 3;
      } else {
        dst[di] := src[si];
        si := si + 1;
      }
      ContinuesNext(all, done, dst[di], UrlCodec.Decode(src[si..]));
      di := di + 1;
      assert dst[..di] == done + [dst[di - 1]];
    }
    dst[di] := CString.NUL;
    DecodeEnds(src[si..]);
    return true;
  }

  lemma DecodeEnds(s: string)
    requires s == "" || s[0] == CString.NUL
    ensures UrlCodec.Decode(s) == UrlCodec.Plain("")
  {
  }

  /** What a caller sees who takes the buffer for a C string. */
  method ReadCString(buffer: array<char>, ghost text: string) returns (s: string)
    requires Holds(buffer[..], text)
    ensures s == CString.UpToNul(text)
  {
    var n := 0;
    assert forall x :: 0 <= x < |text| ==> buffer[x] == buffer[..][..|text|][x] == text[x];
    while buffer[n] != CString.NUL
      invariant 0 <= n <= |text|
      invariant forall i :: 0 <= i < n ==> text[i] != CString.NUL
      decreases |text| - n
    {
      n := n + 1;
    }
    CString.FirstNul(text, n);
    assert buffer[..n] == text[..n];
    return buffer[..n];
  }

  method CheckUrl(buffer: array<char>, ghost text: string) returns (ok: bool)
    requires Holds(buffer[..], text)
    ensures ok <==> UrlCodec.UrlAllowed(CString.UpToNul(text))
  {
    ghost var u := CString.UpToNul(text);
    var prevChar := CString.NUL;
    var i := 0;
    assert forall x :: 0 <= x < |text| ==> buffer[x] == buffer[..][..|text|][x] == text[x];
    assert buffer[|u|] == CString.NUL;
    while buffer[i] != CString.NUL
      invariant 0 <= i <= |u| && |u| < buffer.Length
      invariant forall x :: 0 <= x < |u| ==> buffer[x] == u[x] && u[x] != CString.NUL
      invariant prevChar == if i == 0 then CString.NUL else u[i - 1]
      invariant forall x :: 0 <= x < i ==> UrlCodec.CheckSymbol(u[x])
      invariant forall x :: 0 < x < i ==> !(u[x] == '.' && u[x - 1] == '.')
      decreases |u| - i
    {
      if !UrlCodec.CheckSymbol(buffer[i]) {
        return false;
      }
      if buffer[i] == '.' && buffer[i] == prevChar {
        return false;
      }
      prevChar := buffer[i];
      i := i + 1;
    }
    return true;
  }

  /** A C string: reading behind the last character gives the terminating NUL. */
  function CharAt(s: string, i: nat): char {
    if i < |s| then s[i] else CString.NUL
  }

  method SkipBufferSlashes(buffer: array<char>, ghost u: string) returns (i: nat)
    requires CString.NUL !in u && |u| < buffer.Length
    requires forall x :: 0 <= x <= |u| ==> buffer[x] == CharAt(u, x)
    ensures i <= |u| && UrlPrefix.StripSlashes(u) == u[i..]
  {
    i := 0;
    while buffer[i] == '/'
      invariant i <= |u| && forall x :: 0 <= x < i ==> u[x] == '/'
      decreases |u| - i
    {
      i := i + 1;
    }
    UrlPrefix.StripAt(u, i);
  }

  method SkipPrefixSlashes(prefix: string) returns (i: nat)
    ensures i <= |prefix| && UrlPrefix.StripSlashes(prefix) == prefix[i..]
  {
    i := 0;
    while CharAt(prefix, i) == '/'
      invariant i <= |prefix| && forall x :: 0 <= x < i ==> prefix[x] == '/'
      decreases |prefix| - i
    {
      i := i + 1;
    }
    UrlPrefix.StripAt(prefix, i);
  }

  method SelectsBuffer(prefix: string, buffer: array<char>, ghost u: string) returns (selected: bool)
    requires CString.NUL !in prefix && CString.NUL !in u && |u| < buffer.Length
    requires forall x :: 0 <= x <= |u| ==> buffer[x] == CharAt(u, x)
    ensures selected <==> UrlPrefix.Selects(prefix, u)
  {
    hide UrlPrefix.Selects, UrlPrefix.StripSlashes, UrlPrefix.AgreeUpTo;
    var u0 := SkipBufferSlashes(buffer, u);
    var p0 := SkipPrefixSlashes(prefix);
    var ui, pi := CompareFrom(prefix, buffer, u, p0, u0);
    UrlPrefix.SelectsAt(prefix, u, p0, u0, pi - p0);
    if CharAt(prefix, pi) == CString.NUL {
      if buffer[ui] == '/' || buffer[ui] == CString.NUL {
        return true;
      }
      return pi > 0 && ui > 0 && prefix[pi - 1] == '/' && buffer[ui - 1] == '/';
    } else if CharAt(prefix, pi) == '/' {
      return buffer[ui] == CString.NUL;
    }
    return false;
  }

  method CompareFrom(prefix: string, buffer: array<char>, ghost u: string, p0: nat, u0: nat)
    returns (ui: nat, pi: nat)
    requires CString.NUL !in prefix && CString.NUL !in u && |u| < buffer.Length
    requires forall x :: 0 <= x <= |u| ==> buffer[x] == CharAt(u, x)
    requires p0 <= |prefix| && u0 <= |u|
    ensures u0 <= ui <= |u| && p0 <= pi <= |prefix| && ui - u0 == pi - p0
    ensures UrlPrefix.AgreeUpTo(prefix[p0..], u[u0..], pi - p0)
  {
    ui, pi := u0, p0;
    while buffer[ui] != CString.NUL && CharAt(prefix, pi) != CString.NUL && buffer[ui] == CharAt(prefix, pi)
      invariant u0 <= ui <= |u| && p0 <= pi <= |prefix| && ui - u0 == pi - p0
      invariant forall x :: 0 <= x < pi - p0 ==> prefix[p0..][x] == u[u0..][x]
      decreases |u| - ui
    {
      ui, pi := ui + 1, pi + 1;
    }
    assert prefix[p0..][..pi - p0] == u[u0..][..pi - p0];
  }

  lemma NoHeadersInRange(d: string, r: Request)
    requires r.url.End() <= |d| && |r.headers| == 0
    ensures InRange(d, r)
  {
  }

  lemma NothingRecorded(d: string, r: Request)
    requires r == Initial()
    ensures WellFormed(d, r) && InRange(d, r)
  {
    hide WellFormed, InRange;
    InitialFits(d);
    NoHeadersInRange(d, r);
  }

  lemma StepOnValue(d: string, r: Request)
    requires WellFormed(d, r) && r.state == HeaderValue
    ensures var o := ScanHeaderValue(d, r.cur);
            && (o.Ok? ==> r.cur + o.length <= |d| && Step(d, r) == StoreHeader(d, r, o.length))
            && (!o.Ok? ==> Step(d, r) == Refuse(o, r))
  {
    hide Run, MatchesName, Atoi, LineFeeds, InClass;
  }

  class HttpRequest {
    var data: string
    var state: State
    var cur: nat
    var meth: Field
    var url: Field
    var urlParameters: Field
    var contentStart: nat
    var contentLength: int
    var curKey: Field
    var headers: seq<Header>
    var urlBuffer: array?<char>

    function Snapshot(): Request
      reads this
    {
      Request(state, cur, meth, url, urlParameters, contentStart, contentLength, curKey, headers)
    }

    /** After `finishOk` the buffer holds the decoded, checked URL. */
    ghost predicate UrlDecoded()
      requires url.End() <= |data|
      reads this, urlBuffer
    {
      var t := UrlCodec.Decode(Slice(data, url));
      && urlBuffer != null && t.Plain? && Holds(urlBuffer[..], t.text)
      && AcceptedUrl(Slice(data, url)).Plain?
    }

    ghost predicate Valid()
      reads this, urlBuffer
    {
      && WellFormed(data, Snapshot()) && InRange(data, Snapshot())
      && (state == Finish ==> UrlDecoded())
    }

    constructor ()
      ensures Valid() && Snapshot() == Initial() && data == "" && urlBuffer == null
    {
      hide UrlCodec.Decode, AcceptedUrl, UrlDecoded, WellFormed, InRange;
      data := "";
      state, cur := Method, 0;
      meth, url, urlParameters := Field(0, 0), Field(0, 0), Field(0, 0);
      contentStart, contentLength := 0, 0;
      curKey, headers := Field(0, 0), [];
      urlBuffer := null;
      new;
      NothingRecorded(data, Snapshot());
    }

    /** Makes the object ready for the next request; only the URL buffer is kept. */
    method Reset()
      modifies this
      ensures Valid() && Snapshot() == Initial() && data == "" && urlBuffer == old(urlBuffer)
    {
      hide UrlCodec.Decode, AcceptedUrl, UrlDecoded, WellFormed, InRange;
      cur := 0;
      data := "";
      state := Method;
      meth, url, urlParameters := Field(0, 0), Field(0, 0), Field(0, 0);
      contentStart, contentLength := 0, 0;
      curKey := Field(0, 0);
      headers := [];
      NothingRecorded(data, Snapshot());
    }

    method ReadMethod() returns (o: ReadOutcome)
      requires cur <= |data|
      ensures o == ScanMethod(data, cur)
    {
      var i := cur;
      while i < |data|
        invariant cur <= i <= |data| && Span(data, cur, MethodSymbol) == Span(data, i, MethodSymbol)
      {
        if 'A' <= data[i] <= 'Z' {
          i := i + 1;
        } else if data[i] == ' ' {
          return Ok(i - cur);
        } else {
          return Malformed;
        }
      }
      return NeedMore;
    }

    method ReadSpaces() returns (o: ReadOutcome)
      requires cur <= |data|
      ensures o == ScanSpaces(data, cur)
    {
      var i := cur;
      while i < |data| && data[i] == ' '
        invariant cur <= i <= |data| && Span(data, cur, Blank) == Span(data, i, Blank)
      {
        i := i + 1;
      }
      if i == |data| {
        return NeedMore;
      } else if data[i] == '\r' || data[i] == '\n' {
        return Malformed;
      }
      return Ok(i - cur);
    }

    method ReadUrl() returns (o: ReadOutcome)
      requires cur <= |data|
      ensures o == ScanUrl(data, cur)
    {
      var i := cur;
      while i < |data|
        invariant cur <= i <= |data| && Span(data, cur, UrlSymbol) == Span(data, i, UrlSymbol)
      {
        if InClass(data[i], UrlSymbol) {
          i := i + 1;
        } else if data[i] == ' ' {
          return Ok(i - cur);
        } else if data[i] == '?' {
          return Question(i - cur);
        } else {
          return Malformed;
        }
      }
      return NeedMore;
    }

    /** The test for a line break after the loop can never succeed: the loop stops only at a blank. */
    method ReadUrlParameters() returns (o: ReadOutcome)
      requires cur <= |data|
      ensures o == ScanUrlParameters(data, cur)
    {
      var i := cur;
      while i < |data| && data[i] != ' '
        invariant cur <= i <= |data| && Span(data, cur, NotBlank) == Span(data, i, NotBlank)
      {
        i := i + 1;
      }
      if i == |data| {
        return NeedMore;
      }
      return Ok(i - cur);
    }

    method SkipBreaks(from: nat) returns (i: nat, lineBreakCounter: nat)
      requires from <= |data|
      ensures i == Span(data, from, Break) && lineBreakCounter == LineFeeds(data, from, i)
    {
      i, lineBreakCounter := from, 0;
      while i < |data| && (data[i] == '\r' || data[i] == '\n')
        invariant from <= i <= |data| && Span(data, from, Break) == Span(data, i, Break)
        invariant lineBreakCounter == LineFeeds(data, from, i)
      {
        if data[i] == '\n' {
          lineBreakCounter := lineBreakCounter + 1;
        }
        i := i + 1;
      }
    }

    method ReadToNextLine() returns (o: ReadOutcome)
      requires cur <= |data|
      ensures o == ScanToNextLine(data, cur)
    {
      var i := cur;
      while i < |data| && data[i] != '\r' && data[i] != '\n'
        invariant cur <= i <= |data| && Span(data, cur, NotBreak) == Span(data, i, NotBreak)
      {
        i := i + 1;
      }
      if i == |data| {
        return NeedMore;
      }
      var j, lineBreakCounter := SkipBreaks(i);
      if lineBreakCounter > 1 {
        return EndOfHeaders(j - cur);
      }
      if j == |data| {
        return NeedMore;
      }
      return Ok(j - cur);
    }

    method ReadHeaderKey() returns (o: ReadOutcome)
      requires cur <= |data|
      ensures o == ScanHeaderKey(data, cur)
    {
      var i := cur;
      while i < |data|
        invariant cur <= i <= |data| && Span(data, cur, KeySymbol) == Span(data, i, KeySymbol)
      {
        if InClass(data[i], KeySymbol) {
          i := i + 1;
        } else if data[i] == ':' {
          return Ok(i - cur);
        } else {
          return Malformed;
        }
      }
      return NeedMore;
    }

    method ReadHeaderSpace() returns (o: ReadOutcome)
      requires cur <= |data|
      ensures o == ScanHeaderSpace(data, cur)
    {
      var i := cur;
      while i < |data|
        invariant cur <= i <= |data| && Span(data, cur, Separator) == Span(data, i, Separator)
      {
        if data[i] == ':' || data[i] == ' ' {
          i := i + 1;
        } else if data[i] == '\r' || data[i] == '\n' {
          return Malformed;
        } else {
          return Ok(i - cur);
        }
      }
      return NeedMore;
    }

    method ReadHeaderValue() returns (o: ReadOutcome)
      requires cur <= |data|
      ensures o == ScanHeaderValue(data, cur)
    {
      var i := cur;
      while i < |data|
        invariant cur <= i <= |data| && Span(data, cur, NotBreak) == Span(data, i, NotBreak)
      {
        if data[i] != '\r' && data[i] != '\n' {
          i := i + 1;
        } else {
          return Ok(i - cur);
        }
      }
      return NeedMore;
    }

    method ReadHeaderLineBreak() returns (o: ReadOutcome)
      requires cur <= |data|
      ensures o == ScanHeaderLineBreak(data, cur)
    {
      var i, lineBreakCounter := SkipBreaks(cur);
      if lineBreakCounter > 1 {
        return EndOfHeaders(i - cur);
      }
      if i == |data| {
        return NeedMore;
      }
      return Ok(i - cur);
    }

    /** The request-line states of the `switch`. */
    method PassRequestLine() returns (o: Outcome)
      requires WellFormed(data, Snapshot()) && Rank(state) >= Rank(SpaceAfterUrl)
      modifies this
      ensures data == old(data) && urlBuffer == old(urlBuffer)
      ensures o == Step(data, old(Snapshot())) && Snapshot() == o.request
    {
      hide ScanMethod, ScanSpaces, ScanUrl, ScanUrlParameters, ScanToNextLine, MatchesName, Atoi, InRange, Holds;
      hide UrlCodec.Decode, AcceptedUrl, UrlDecoded;
      var result: ReadOutcome;
      match state {
        case Method =>
          result := ReadMethod();
          if result.Ok? {
            meth := Field(cur, result.length);
            cur := cur + result.length;
            state := SpaceAfterMethod;
            return Next(Snapshot());
          }
        case SpaceAfterMethod =>
          result := ReadSpaces();
          if result.Ok? {
            cur := cur + result.length;
            state := Url;
            return Next(Snapshot());
          }
        case Url =>
          result := ReadUrl();
          if result.Ok? || result.Question? {
            url := Field(cur, result.length);
            cur := cur + result.length;
            state := if result.Ok? then SpaceAfterUrl else UrlParameters;
            return Next(Snapshot());
          }
        case UrlParameters =>
          result := ReadUrlParameters();
          if result.Ok? {
            urlParameters := Field(cur, result.length);
            cur := cur + result.length;
            state := SpaceAfterUrl;
          }
          return Next(Snapshot());
        case SpaceAfterUrl =>
          result := ReadToNextLine();
          if result.Ok? {
            cur := cur + result.length;
            state := HeaderKey;
            return Next(Snapshot());
          }
      }
      return Stop(if result.NeedMore? then NeedMoreData else FinishInvalid, Snapshot());
    }

    method PassHeaderValue() returns (o: Outcome)
      requires WellFormed(data, Snapshot()) && state == HeaderValue
      modifies this
      ensures data == old(data) && urlBuffer == old(urlBuffer)
      ensures o == Step(data, old(Snapshot())) && Snapshot() == o.request
    {
      hide Step, Run, ScanHeaderValue, MatchesName, Atoi, InRange, Holds, Slice, Span, InClass, Rank;
      hide UrlCodec.Decode, AcceptedUrl, UrlDecoded, Valid;
      ghost var before := Snapshot();
      StepOnValue(data, before);
      var result := ReadHeaderValue();
      if result.Ok? {
        headers := headers + [Header(curKey, Field(cur, result.length))];
        if MatchesName(CONTENT_LENGTH, Slice(data, curKey)) {
          if result.length > MAX_LENGTH_CHARS {
            return Stop(FinishInvalid, Snapshot());
          }
          contentLength := Atoi(data[cur..cur + result.length]);
        }
        cur := cur + result.length;
        state := HeaderLineBreak;
        return Next(Snapshot());
      }
      assert Snapshot() == before;
      return Stop(if result.NeedMore? then NeedMoreData else FinishInvalid, Snapshot());
    }

    method PassHeaders() returns (o: Outcome)
      requires WellFormed(data, Snapshot())
      requires Rank(HeaderKey) >= Rank(state) >= Rank(HeaderLineBreak)
      modifies this
      ensures data == old(data) && urlBuffer == old(urlBuffer)
      ensures o == Step(data, old(Snapshot())) && Snapshot() == o.request
    {
      hide ScanHeaderKey, ScanHeaderSpace, ScanHeaderValue, ScanHeaderLineBreak, MatchesName, InRange, Holds;
      hide UrlCodec.Decode, AcceptedUrl, UrlDecoded;
      hide Atoi;
      var result: ReadOutcome;
      match state {
        case HeaderKey =>
          result := ReadHeaderKey();
          if result.Ok? {
            curKey := Field(cur, result.length);
            cur := cur + result.length;
            state := HeaderSpace;
            return Next(Snapshot());
          }
        case HeaderSpace =>
          result := ReadHeaderSpace();
          if result.Ok? {
            cur := cur + result.length;
            state := HeaderValue;
            return Next(Snapshot());
          }
        case HeaderValue =>
          o := PassHeaderValue();
          return;
        case HeaderLineBreak =>
          result := ReadHeaderLineBreak();
          if result.Ok? {
            cur := cur + result.length;
            state := HeaderKey;
            return Next(Snapshot());
          } else if result.EndOfHeaders? {
            if contentLength == 0 {
              state := Finish;
              return Stop(FinishOk, Snapshot());
            }
            cur := cur + result.length;
            state := Content;
            return Next(Snapshot());
          }
      }
      return Stop(if result.NeedMore? then NeedMoreData else FinishInvalid, Snapshot());
    }

    /** One pass of the loop in parseInternal. */
    method Pass() returns (o: Outcome)
      requires WellFormed(data, Snapshot())
      modifies this
      ensures data == old(data) && urlBuffer == old(urlBuffer)
      ensures o == Step(data, old(Snapshot())) && Snapshot() == o.request
    {
      if Rank(state) >= Rank(SpaceAfterUrl) {
        o := PassRequestLine();
      } else if Rank(state) >= Rank(HeaderLineBreak) {
        o := PassHeaders();
      } else if state == Content {
        if |data| - cur >= contentLength {
          contentStart := cur;
          state := Finish;
          return Stop(FinishOk, Snapshot());
        }
        return Stop(NeedMoreData, Snapshot());
      } else if state == Finish {
        return Stop(FinishOk, Snapshot());
      } else {
        return Stop(FinishInvalid, Snapshot());
      }
    }

    /** The parser's loop. A pass that leaves every field as it was would be repeated for ever;
        the method stops there and says so. */
    method ParseInternal() returns (answer: ParseAnswer)
      requires WellFormed(data, Snapshot()) && InRange(data, Snapshot())
      modifies this
      ensures data == old(data) && urlBuffer == old(urlBuffer)
      ensures WellFormed(data, Snapshot()) && InRange(data, Snapshot())
      ensures match Run(data, old(Snapshot()))
              case Returned(result, r) => answer == Answer(result) && Snapshot() == r
              case Diverges => answer == Hangs && StuckInQuery(data, Snapshot())
    {
      hide Step;
      while true
        invariant data == old(data) && urlBuffer == old(urlBuffer)
        invariant WellFormed(data, Snapshot()) && InRange(data, Snapshot())
        invariant Run(data, Snapshot()) == Run(data, old(Snapshot()))
        decreases |data| - cur, Rank(state)
      {
        var before := Snapshot();
        StepProgress(data, before);
        StepInRange(data, before);
        var o := Pass();
        if o.Stop? {
          return Answer(o.result);
        }
        if Snapshot() == before {
          return Hangs;
        }
      }
    }

    method DecodeUrl() returns (ok: bool)
      requires url.End() <= |data|
      modifies this`urlBuffer, urlBuffer
      ensures urlBuffer == old(urlBuffer) || fresh(urlBuffer)
      ensures ok <==> state == Finish && url.length > 0 && UrlCodec.Decode(Slice(data, url)).Plain?
      ensures ok ==> urlBuffer != null && Holds(urlBuffer[..], UrlCodec.Decode(Slice(data, url)).text)
    {
      if state != Finish {
        return false;
      }
      if url.length == 0 {
        return false;
      }
      if urlBuffer == null || urlBuffer.Length < url.length + 1 {
        urlBuffer := new char[url.length + 1];
      }
      ok := PercentDecode(Slice(data, url), urlBuffer);
    }

    method PostParse() returns (result: ParseResult)
      requires url.End() <= |data|
      modifies this, urlBuffer
      ensures urlBuffer == old(urlBuffer) || fresh(urlBuffer)
      ensures data == old(data) && url == old(url)
      ensures if old(state) == Finish && AcceptedUrl(Slice(data, url)).Plain?
              then result == FinishOk && Snapshot() == old(Snapshot()) && UrlDecoded()
              else result == FinishInvalid && Snapshot() == old(Snapshot()).(state := Invalid)
    {
      var ok := DecodeUrl();
      if !ok {
        state := Invalid;
        return FinishInvalid;
      }
      ok := CheckUrl(urlBuffer, UrlCodec.Decode(Slice(data, url)).text);
      if !ok {
        state := Invalid;
        return FinishInvalid;
      }
      return FinishOk;
    }

    /** One call with everything received so far, which extends what the last call was given. */
    method Parse(received: string) returns (answer: ParseAnswer)
      requires Valid() && data <= received
      modifies this, urlBuffer
      ensures urlBuffer == old(urlBuffer) || fresh(urlBuffer)
      ensures Valid() && data == received
      ensures match Run(received, old(Snapshot()))
              case Diverges => answer == Hangs
              case Returned(FinishOk, r) =>
                InRange(received, r) &&
                if AcceptedUrl(Slice(received, r.url)).Plain?
                then answer == Answer(FinishOk) && Snapshot() == r
                else answer == Answer(FinishInvalid) && Snapshot() == r.(state := Invalid)
              case Returned(result, r) => answer == Answer(result) && Snapshot() == r
    {
      hide Step, Run;
      var before := Snapshot();
      data := received;
      RunKeeps(received, before);
      RunInRange(received, before);
      RunFinishes(received, before);
      answer := ParseInternal();
      if answer == Answer(FinishOk) {
        var result := PostParse();
        answer := Answer(result);
      }
    }

    method GetUrl() returns (u: UrlCodec.Decoded)
      requires Valid()
      ensures u == if state == Finish then AcceptedUrl(Slice(data, url)) else UrlCodec.BadTriplet
    {
      if state != Finish {
        return UrlCodec.BadTriplet;
      }
      hide Holds, UrlCodec.Decode, CString.UpToNul;
      var text := ReadCString(urlBuffer, UrlCodec.Decode(Slice(data, url)).text);
      return UrlCodec.Plain(text);
    }

    /** Whether the decoded URL is selected by a proxy's prefix. */
    method IsUrlPrefix(prefix: string) returns (selected: bool)
      requires Valid() && CString.NUL !in prefix
      ensures selected <==> state == Finish && UrlPrefix.Selects(prefix, AcceptedUrl(Slice(data, url)).text)
    {
      hide UrlCodec.Decode, CString.UpToNul, UrlPrefix.Selects, UrlCodec.UrlAllowed;
      if state != Finish {
        return false;
      }
      ghost var text := UrlCodec.Decode(Slice(data, url)).text;
      ghost var u := CString.UpToNul(text);
      assert forall x :: 0 <= x < |text| ==> urlBuffer[x] == urlBuffer[..][..|text|][x] == text[x];
      selected := SelectsBuffer(prefix, urlBuffer, u);
    }

    /** The value of the first header whose name matches as far as it goes. That is the first header of that
        very name if and only if no header in front of it abbreviates the name. */
    method GetHeaderValue(key: string) returns (v: HeaderValueAnswer, ghost index: nat)
      requires Valid()
      ensures state != Finish ==> v == NotFound
      ensures state == Finish ==>
                var keys := Keys(data, headers);
                && index == FirstFound(key, keys)
                && v == (if index < |headers| then Found(Slice(data, headers[index].value)) else NotFound)
                && (index == FirstNamed(key, keys) <==>
                      forall j :: 0 <= j < FirstNamed(key, keys) ==> !Abbreviates(key, keys[j]))
    {
      hide Holds, UrlCodec.Decode, AcceptedUrl, UrlDecoded, WellFormed, Keys, Slice, FirstFound, FirstNamed,
           Abbreviates;
      if state != Finish {
        return NotFound, 0;
      }
      v, index := FindHeader(data, headers, key);
    }
  }

  /** The loop of getHeaderValue. */
  method FindHeader(d: string, hs: seq<Header>, key: string) returns (v: HeaderValueAnswer, ghost index: nat)
    requires forall i :: 0 <= i < |hs| ==> hs[i].key.End() <= |d| && hs[i].value.End() <= |d|
    ensures var keys := Keys(d, hs);
            && index == FirstFound(key, keys)
            && v == (if index < |hs| then Found(Slice(d, hs[index].value)) else NotFound)
            && (index == FirstNamed(key, keys) <==>
                  forall j :: 0 <= j < FirstNamed(key, keys) ==> !Abbreviates(key, keys[j]))
  {
    hide MatchesName, Abbreviates, FirstFound, FirstNamed, Keys, Slice, Step, Run;
    ghost var keys := Keys(d, hs);
    LookupExactly(key, keys);
    for i := 0 to |hs|
      invariant forall j :: 0 <= j < i ==> !MatchesName(key, keys[j])
    {
      if MatchesName(key, Slice(d, hs[i].key)) {
        FirstFoundIs(key, keys, i);
        return Found(Slice(d, hs[i].value)), i;
      }
    }
    FirstFoundIs(key, keys, |hs|);
    return NotFound, |hs|;
  }

  /** The names of the recorded headers. */
  function Keys(d: string, hs: seq<Header>): (keys: seq<string>)
    requires forall i :: 0 <= i < |hs| ==> hs[i].key.End() <= |d|
    ensures |keys| == |hs| && forall i :: 0 <= i < |hs| ==> keys[i] == Slice(d, hs[i].key)
  {
    if hs == [] then [] else [Slice(d, hs[0].key)] + Keys(d, hs[1..])
  }

  lemma {:induction false} RunFinishes(d: string, r: Request)
    requires WellFormed(d, r)
    ensures Run(d, r).Returned? ==>
              (Run(d, r).result == FinishOk <==> Run(d, r).request.state == Finish)
    decreases |d| - r.cur, Rank(r.state)
  {
    StepProgress(d, r);
    if Step(d, r).Next? && Step(d, r).request != r {
      RunFinishes(d, Step(d, r).request);
    }
  }
}
