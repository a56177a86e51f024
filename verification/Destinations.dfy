/** Where a whole request goes, from the text that its URL stands for: the first proxy that selects it, or a file of the
    document folder (src/executors/RequestExecutor.cpp). */
module Destinations {
  import opened HttpSyntax
  import opened HttpMachine
  import opened ExecutorLimits
  import opened RingBuffer
  import opened RequestModel
  import opened RequestRuns
  import CString
  import Decimals
  import HttpNames
  import HttpRender
  import HttpRequestObject
  import UrlCodec
  import UrlPrefix

  /** The URL is a percent-encoding of this text. */
  predicate StandsFor(url: string, t: string) {
    UrlCodec.Complete(url) && UrlCodec.Encodes(t, url)
  }

  predicate NoProxy(g: Config, t: string) {
    forall i :: 0 <= i < |g.proxies| ==> !UrlPrefix.Selects(g.proxies[i].prefix, t)
  }

  predicate FirstProxy(g: Config, t: string, i: nat) {
    && i < |g.proxies| && UrlPrefix.Selects(g.proxies[i].prefix, t)
    && forall j :: 0 <= j < i ==> !UrlPrefix.Selects(g.proxies[j].prefix, t)
  }

  /** The file of an allowed path, if the name fits its buffer. */
  predicate IsFileOf(g: Config, t: string, name: string) {
    if t == "/" then name == g.root + "index.html" else |g.root| + |t| <= 300 && name == g.root + t
  }

  /** What a request for the path `t` leads to. */
  predicate Goes(g: Config, channel: Channel, t: string, d: Destination) {
    match d
    case ToProxy(i) => FirstProxy(g, t, i) && channel in g.proxies[i].accepts
    case ToFile(name) => NoProxy(g, t) && IsFileOf(g, t, name)
    case Refused =>
      || (exists i: nat | i < |g.proxies| :: FirstProxy(g, t, i) && channel !in g.proxies[i].accepts)
      || (NoProxy(g, t) && t != "/" && |g.root| + |t| > 300)
  }

  lemma RouteGoes(g: Config, channel: Channel, t: string, d: Destination)
    ensures Route(g, channel, t) == d <==> Goes(g, channel, t, d)
  {
    hide FirstMatch, UrlPrefix.Selects;
    var i := FirstMatch(g.proxies, t);
    FirstMatchIsFirst(g.proxies, t, i);
    FirstMatchIsFirst(g.proxies, t, |g.proxies|);
    forall j: nat | FirstProxy(g, t, j) ensures j == i {
      FirstMatchIsFirst(g.proxies, t, j);
    }
  }

  lemma AcceptedIs(url: string, t: string)
    requires StandsFor(url, t)
    ensures var u := CString.UpToNul(t);
            HttpRequestObject.AcceptedUrl(url)
            == if url != "" && UrlCodec.UrlAllowed(u) then UrlCodec.Plain(u) else UrlCodec.BadTriplet
  {
    hide UrlCodec.UrlAllowed, UrlCodec.Complete, UrlCodec.Encodes, UrlCodec.Decode;
    UrlCodec.DecodeInvertsEncoding(t, url);
  }

  /** The destination of a message is determined by the text that its URL stands for, up to its first NUL: the first
      proxy that selects it and accepts the kind of connection, or else the folder and this text. */
  lemma WantedExactly(g: Config, channel: Channel, m: HttpRender.Message, t: string, d: Destination)
    requires StandsFor(m.url, t)
    ensures var u := CString.UpToNul(t);
            Wanted(g, channel, m) == d <==>
              if m.url != "" && UrlCodec.UrlAllowed(u) then Goes(g, channel, u, d) else d.Refused?
  {
    hide UrlCodec.UrlAllowed, StandsFor, Goes, Route, HttpRequestObject.AcceptedUrl;
    AcceptedIs(m.url, t);
    RouteGoes(g, channel, CString.UpToNul(t), d);
  }

  /** Two paths are served the same file if and only if they are equal, or one is "/" and the other names the index
      itself. */
  lemma SameFileExactly(g: Config, t1: string, t2: string, name1: string, name2: string)
    requires IsFileOf(g, t1, name1) && IsFileOf(g, t2, name2)
    ensures name1 == name2 <==>
              t1 == t2 || (t1 == "/" && t2 == "index.html") || (t1 == "index.html" && t2 == "/")
  {
    assert (g.root + t1)[|g.root|..] == t1 && (g.root + t2)[|g.root|..] == t2;
    assert (g.root + "index.html")[|g.root|..] == "index.html";
  }

  /** The characters that may stand in a URL as they are, and those that are allowed once it is decoded: only the blank
      needs a triplet, and of the others only the equals sign and the percent sign are refused later. */
  lemma SymbolTables(c: char)
    ensures InClass(c, UrlSymbol) <==> (UrlCodec.CheckSymbol(c) && c != ' ') || c == '=' || c == '%'
    ensures UrlCodec.CheckSymbol(c) <==> (InClass(c, UrlSymbol) && c != '=' && c != '%') || c == ' '
    ensures InClass(c, MethodSymbol) <==> InClass(c, KeySymbol) && Lower(c) != c
  {
  }

  lemma {:induction false} EncodedIsUrl(t: seq<UrlCodec.Byte>)
    requires forall i :: 0 <= i < |t| ==> UrlCodec.CheckSymbol(t[i])
    ensures AllIn(UrlCodec.Encode(t), UrlSymbol) && StandsFor(UrlCodec.Encode(t), t)
  {
    if t != [] {
      EncodedIsUrl(t[1..]);
      var c, rest := t[0], UrlCodec.Encode(t[1..]);
      SymbolTables(c);
      if UrlCodec.Unreserved(c) {
        assert UrlCodec.Encode(t) == [c] + rest;
      } else {
        UrlCodec.HexDigitsBack(c);
        assert UrlCodec.Encode(t)[3..] == rest;
      }
    }
  }

  // ---- Whole requests ----

  /** Where a connection ended that was routed: a removed one went nowhere. */
  function EndOf(end: Fate): Destination {
    if end.HandOver? then end.destination else Refused
  }

  /** A well-formed request, in whatever pieces it arrives as long as none ends inside the query string, goes where the
      text of its URL says, with all its bytes; if there is none, or it is not allowed or leads nowhere, it is
      dropped. */
  lemma RequestGoesTo(g: Config, channel: Channel, ring: Ring, m: HttpRender.Message, t: string, script: seq<Answer>)
    returns (n: nat)
    requires Unwrapped(ring, "") && Delivers(script) && Patient(script, 0) && !EndsIdle(script)
    requires Bytes(script) == HttpRender.Render(m) && |HttpRender.Render(m)| <= SIZE
    requires HttpRender.ValidMessage(m) && HttpRender.Complete(m) && HttpRender.Understood(m)
    requires HttpRender.Tight(m)
    requires StandsFor(m.url, t) && !HangsSomewhere(Shown([], script))
    ensures n <= |script| && PossibleRun(g, channel, Start(ring), script[..n])
    ensures var end, u := Live(g, channel, Start(ring), script[..n]), CString.UpToNul(t);
            && (end.HandOver? || end.Removed?)
            && (if m.url != "" && UrlCodec.UrlAllowed(u) then Goes(g, channel, u, EndOf(end)) else end.Removed?)
            && (end.HandOver? ==> !end.destination.Refused? && Unwrapped(end.state.ring, HttpRender.Render(m)))
  {
    hide Live, PossibleRun, Patient, HttpRender.Render, HttpRender.ValidMessage, HttpRender.Understood, Shown, Bytes,
         HttpRender.Complete, HttpRender.Tight, Unwrapped, Goes, StandsFor, UrlCodec.UrlAllowed, Wanted,
         HangsSomewhere, Delivers;
    n := WellFormedRequestIsRouted(g, channel, ring, m, script);
    WantedExactly(g, channel, m, t, Wanted(g, channel, m));
  }

  /** A request for the allowed path `t` that no proxy selects is handed over to the file of that very name behind the
      folder if and only if the name has at most 300 characters, and "/" is handed over to the index. */
  lemma FileRequest(g: Config, channel: Channel, ring: Ring, m: HttpRender.Message, t: string, script: seq<Answer>)
    returns (n: nat)
    requires Unwrapped(ring, "") && Delivers(script) && Patient(script, 0) && !EndsIdle(script)
    requires Bytes(script) == HttpRender.Render(m) && |HttpRender.Render(m)| <= SIZE
    requires HttpRender.ValidMessage(m) && HttpRender.Complete(m) && HttpRender.Understood(m)
    requires HttpRender.Tight(m)
    requires m.url != "" && StandsFor(m.url, t) && !HangsSomewhere(Shown([], script))
    requires UrlCodec.UrlAllowed(t) && NoProxy(g, t)
    ensures n <= |script| && PossibleRun(g, channel, Start(ring), script[..n])
    ensures var end := Live(g, channel, Start(ring), script[..n]);
            && (t != "/" ==> (end.HandOver? && end.destination == ToFile(g.root + t) <==> |g.root| + |t| <= 300))
            && (t == "/" ==> end.HandOver? && end.destination == ToFile(g.root + "index.html"))
            && (end.HandOver? || end.Removed?)
  {
    hide Live, PossibleRun, Patient, HttpRender.Render, HttpRender.ValidMessage, HttpRender.Understood, Shown, Bytes,
         HttpRender.Complete, HttpRender.Tight, Unwrapped, StandsFor, UrlCodec.UrlAllowed, HangsSomewhere, Delivers;
    n := RequestGoesTo(g, channel, ring, m, t, script);
    AllowedHasNoNul(t);
  }

  lemma AllowedHasNoNul(t: string)
    requires UrlCodec.UrlAllowed(t)
    ensures CString.UpToNul(t) == t
  {
    assert CString.NUL !in t by {
      forall i | 0 <= i < |t| ensures t[i] != CString.NUL {
        assert UrlCodec.CheckSymbol(t[i]);
      }
    }
  }

  /** A message whose body length stands in decimal in the one header that is taken for it, and whose body starts with
      no line break, is complete and understood if it fits the buffer. */
  lemma DecimalIsUnderstood(m: HttpRender.Message, i: nat)
    requires HttpRender.ValidMessage(m) && HttpRender.SaysLength(m, i) && |HttpRender.Render(m)| <= SIZE
    requires !HttpRender.StartsWithBreak(m.body)
    ensures HttpRender.Complete(m) && HttpRender.Understood(m)
    ensures |Decimals.Decimal(|m.body|)| <= 5
  {
    hide HttpRender.Render, HttpRender.ValidMessage, HttpRender.SaysLength, HttpRender.Complete, Decimals.Decimal,
         HttpRender.Recovers, HttpRender.HeadersUnderstood, Run;
    HttpRender.HeadIsPrefix(m);
    HttpRender.DecimalBodyIsParsed(m, i);
    Decimals.DecimalLength(|m.body|, MAX_LENGTH_CHARS);
    FiveDigits();
    Decimals.DecimalLength(|m.body|, 5);
  }

  lemma FiveDigits()
    ensures SIZE < Decimals.Pow10(5) <= Decimals.Pow10(MAX_LENGTH_CHARS)
  {
    assert Decimals.Pow10(1) == 10 && Decimals.Pow10(2) == 100 && Decimals.Pow10(3) == 1000;
    assert Decimals.Pow10(4) == 10000 && Decimals.Pow10(5) == 100000;
    Growing10(5, MAX_LENGTH_CHARS);
  }

  lemma {:induction false} Growing10(j: nat, k: nat)
    requires j <= k
    ensures Decimals.Pow10(j) <= Decimals.Pow10(k)
    decreases k
  {
    if j < k {
      Growing10(j, k - 1);
      Decimals.AtLeastOne(k - 1);
    }
  }

  /** So a POST that says its length in decimal is routed with its body. */
  lemma PostIsRouted(g: Config, channel: Channel, ring: Ring, m: HttpRender.Message, i: nat, script: seq<Answer>)
    returns (n: nat)
    requires Unwrapped(ring, "") && Delivers(script) && Patient(script, 0) && !EndsIdle(script)
    requires Bytes(script) == HttpRender.Render(m) && |HttpRender.Render(m)| <= SIZE
    requires HttpRender.ValidMessage(m) && HttpRender.SaysLength(m, i) && !HttpRender.StartsWithBreak(m.body)
    requires HttpRender.Tight(m) && !HangsSomewhere(Shown([], script))
    ensures n <= |script| && PossibleRun(g, channel, Start(ring), script[..n])
    ensures RoutedTo(Live(g, channel, Start(ring), script[..n]), Wanted(g, channel, m), HttpRender.Render(m))
  {
    hide Live, PossibleRun, Patient, HttpRender.Render, HttpRender.ValidMessage, HttpRender.Understood, Shown, Bytes,
         HttpRender.Complete, HttpRender.Tight, HttpRender.SaysLength, HttpRender.StartsWithBreak, Unwrapped, Wanted,
         HangsSomewhere, Delivers, RoutedTo;
    DecimalIsUnderstood(m, i);
    n := WellFormedRequestIsRouted(g, channel, ring, m, script);
  }

  /** A request for the path `t`. */
  function Get(t: seq<UrlCodec.Byte>): HttpRender.Message {
    HttpRender.Message("GET", " ", UrlCodec.Encode(t), HttpRender.NoQuery, "HTTP/1.1", "\r\n",
                       [HttpNames.HeaderText("Host", ": ", "h", "\r\n")], "\r\n", "")
  }

  lemma GetIsUnderstood(t: seq<UrlCodec.Byte>)
    requires t != [] && forall i :: 0 <= i < |t| ==> UrlCodec.CheckSymbol(t[i])
    ensures HttpRender.ValidMessage(Get(t)) && HttpRender.Complete(Get(t)) && HttpRender.Understood(Get(t))
    ensures HttpRender.Tight(Get(t))
    ensures Get(t).url != "" && StandsFor(Get(t).url, t)
  {
    HttpRender.CrLf();
    hide HttpRender.EndsOneLine, HttpRender.Feeds, HttpRender.ValidHeader, HttpNames.RfcLength, HttpNames.AnyTooLong,
         HttpNames.Misled, UrlCodec.Encode, UrlCodec.CheckSymbol, StandsFor;
    EncodedIsUrl(t);
    HostIsPlain(HttpNames.HeaderText("Host", ": ", "h", "\r\n"));
    NotEmpty(t);
  }

  lemma NotEmpty(t: seq<UrlCodec.Byte>)
    requires t != []
    ensures UrlCodec.Encode(t) != ""
  {
  }

  lemma HostIsPlain(host: HttpNames.HeaderText)
    requires host == HttpNames.HeaderText("Host", ": ", "h", "\r\n")
    ensures HttpRender.ValidHeader(host) && HttpNames.RfcLength([host], 0) == 0
    ensures !HttpNames.AnyTooLong([host]) && !HttpNames.Misled([host])
  {
    HttpRender.CrLf();
    hide HttpNames.RfcNumber, HttpRender.EndsOneLine;
    assert Lower(CONTENT_LENGTH[0]) != Lower(host.key[0]);
    assert !HttpNames.Taken(host) && [host][1..] == [];
  }

  /** Every allowed path can be asked for: percent-encoded in a request that fits the buffer it is handed over to the
      file of that very name, if no proxy selects it and the name fits, and otherwise dropped or taken by a proxy. */
  lemma EveryPathIsServed(g: Config, channel: Channel, ring: Ring, t: seq<UrlCodec.Byte>)
    requires Unwrapped(ring, "") && t != [] && UrlCodec.UrlAllowed(t) && |HttpRender.Render(Get(t))| <= SIZE
    ensures var answers := [Got(HttpRender.Render(Get(t)))];
            && PossibleRun(g, channel, Start(ring), answers)
            && var end := Live(g, channel, Start(ring), answers);
               (end.HandOver? || end.Removed?) && Goes(g, channel, t, EndOf(end))
  {
    hide Live, PossibleRun, HttpRender.Render, HttpRender.ValidMessage, HttpRender.Understood, HttpRender.Complete,
         HttpRender.Tight, Unwrapped, Goes, StandsFor, Wanted, Get;
    GetIsUnderstood(t);
    AllowedHasNoNul(t);
    OnePieceIsRouted(g, channel, ring, Get(t));
    WantedExactly(g, channel, Get(t), t, Wanted(g, channel, Get(t)));
  }
}
