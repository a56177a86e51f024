/** Whole runs of request reading: the parser sees ever longer prefixes of one byte sequence, the
    decision depends on the bytes alone, nothing read is lost when the request is handed over, and a
    connection is read from only finitely often. */
module RequestRuns {
  import opened HttpSyntax
  import opened HttpMachine
  import opened HttpChunks
  import HttpRender
  import HttpRequestObject
  import HttpSplits
  import opened ExecutorLimits
  import opened RingBuffer
  import opened RequestModel
  import opened Sequences

  const SIZE := REQUEST_BUFFER_SIZE
  const MAX_RETRIES := MAX_RETRY_COUNTER

  /** Everything read so far, given what the parser was shown in the successive calls. */
  function Received(views: seq<string>): string {
    if views == [] then "" else Last(views)
  }

  /** The ring holds the received bytes and starts with them: it has never wrapped. */
  predicate Unwrapped(r: Ring, received: string) {
    && r.Ok() && |r.store| == SIZE && r.readHead == 0
    && r.Contents() == received
  }

  predicate Fed(views: seq<string>, result: ParseResult, r: Request) {
    Growing(views) && if views == [] then result == NeedMoreData && r == Initial()
                      else Feed(views) == Returned(result, r)
  }

  predicate Inv(c: Reading, views: seq<string>) {
    && 0 <= c.retry
    && Unwrapped(c.ring, Received(views))
    && Fed(views, NeedMoreData, c.request)
  }

  /** The view added by a call that parsed something. */
  function Seen(views: seq<string>, view: string): seq<string> {
    if view == "" then views else views + [view]
  }

  predicate Possible(c: Reading, a: Answer)
    requires c.ring.Ok()
  {
    c.ring.Wrapped().Ok() && (a.Got? ==> a.bytes != [] && |a.bytes| <= c.ring.Wrapped().WriteRoom())
  }

  lemma UnwrappedRing(r: Ring, received: string)
    requires Unwrapped(r, received)
    ensures r.Wrapped() == r && r.writeHead == |received| && r.WriteRoom() == SIZE - |received|
    ensures r.Exposed() == received
  {
    ExposedIsPrefix(r);
  }

  lemma WrittenUnwrapped(r: Ring, received: string, bytes: string)
    requires Unwrapped(r, received) && |bytes| <= r.WriteRoom()
    ensures r.Written(bytes).Ok() && Unwrapped(r.Written(bytes), received + bytes)
  {
    UnwrappedRing(r, received);
    WrittenAppends(r, bytes);
  }

  /** What was read so far, after one more answer. */
  function NowReceived(received: string, a: Answer): string {
    if a.Got? then received + a.bytes else received
  }

  lemma ReadKeeps(c: Reading, views: seq<string>, a: Answer)
    requires Inv(c, views) && Possible(c, a)
    ensures Fits(c, a)
    ensures ReadRequest(c, a).Holding? ==>
              && Unwrapped(ReadRequest(c, a).state.ring, NowReceived(Received(views), a))
              && ReadRequest(c, a).state.ring.Exposed() == NowReceived(Received(views), a)
              && WellFormed(NowReceived(Received(views), a), c.request)
  {
    hide Ring.Contents, Ring.Exposed, Ring.Written, Feed, Run, WellFormed;
    var received := Received(views);
    UnwrappedRing(c.ring, received);
    if a.Got? {
      WrittenUnwrapped(c.ring, received, a.bytes);
      UnwrappedRing(c.ring.Written(a.bytes), received + a.bytes);
    }
    FedFits(views, c.request, NowReceived(received, a));
  }

  lemma FedFits(views: seq<string>, r: Request, e: string)
    requires Fed(views, NeedMoreData, r) && Received(views) <= e
    ensures WellFormed(e, r)
  {
    if views != [] {
      WellFormedExtend(Last(views), e, r);
    }
  }

  lemma InvCallable(c: Reading, views: seq<string>, a: Answer)
    requires Inv(c, views) && Possible(c, a)
    ensures Callable(c, a)
  {
    hide Ring.Contents, Ring.Exposed, Ring.Written, Feed, Run, WellFormed, Inv, Possible;
    ReadKeeps(c, views, a);
  }

  /** Showing the parser one more view continues the feed. */
  lemma FeedNext(views: seq<string>, r: Request, e: string)
    requires Fed(views, NeedMoreData, r) && Received(views) <= e
    ensures Growing(views + [e]) && WellFormed(e, r)
    ensures Feed(views + [e]) == Run(e, r)
  {
    hide Run, WellFormed, Growing, Initial;
    var chunks := views + [e];
    FedFits(views, r, e);
    GrowingNext(views, e);
    if views == [] {
      assert chunks == [e];
    } else {
      assert chunks[..|chunks| - 1] == views;
    }
  }

  lemma GrowingNext(views: seq<string>, e: string)
    requires Growing(views) && Received(views) <= e
    ensures Growing(views + [e])
  {
  }

  /** Where a finished parse sends the connection: nowhere if its URL is refused. */
  function Choice(g: Config, channel: Channel, e: string, r: Request): Destination {
    var url := UrlOf(e, r);
    if url.BadTriplet? then Refused else Route(g, channel, url.text)
  }

  /** Why a connection is given up, apart from a failing read: the request is refused or leads nowhere, or the
      buffer is full of an unfinished request when the socket is read again. */
  ghost predicate Dropped(g: Config, channel: Channel, shown: seq<string>, a: Answer) {
    && shown != [] && Last(shown) != "" && Growing(shown) && Feed(shown).Returned?
    && match Feed(shown).result
       case NeedMoreData => a.Nothing? && |Last(shown)| == SIZE
       case FinishInvalid => true
       case FinishOk => Choice(g, channel, Last(shown), Feed(shown).request).Refused?
  }

  /** What one call leaves behind. A connection that stays keeps the invariant; one that is handed over
      takes along every byte that was read, and the finished parse of exactly those bytes. */
  ghost predicate GoodOutcome(g: Config, channel: Channel, views: seq<string>, a: Answer, o: Fate) {
    var e := NowReceived(Received(views), a);
    match o
    case Proceed(c) => Inv(c, Seen(views, e)) && Received(Seen(views, e)) == e && (a.Nothing? ==> |e| < SIZE)
    case HandOver(destination, c) =>
      && e != "" && Unwrapped(c.ring, e) && c.retry == 0 && Fed(views + [e], FinishOk, c.request)
      && !destination.Refused? && destination == Choice(g, channel, e, c.request)
    case Hung => e != "" && Growing(views + [e]) && Feed(views + [e]).Diverges?
    case Removed => (a.Nothing? && !a.temporary) || Dropped(g, channel, views + [e], a)
  }

  lemma SameViewWaits(views: seq<string>, r: Request)
    requires views != [] && Fed(views, NeedMoreData, r)
    ensures WellFormed(Last(views), r) && Run(Last(views), r) == Returned(NeedMoreData, r)
  {
    hide Run, Step, WellFormed;
    if |views| == 1 {
      InitialFits(views[0]);
      NeedMoreIsStable(views[0], Initial());
    } else {
      var before := views[..|views| - 1];
      WellFormedExtend(Last(before), Last(views), Feed(before).request);
      NeedMoreIsStable(Last(views), Feed(before).request);
    }
  }

  lemma CallKeepsInv(g: Config, channel: Channel, c: Reading, views: seq<string>, a: Answer)
    requires Inv(c, views) && Possible(c, a)
    ensures Callable(c, a)
    ensures GoodOutcome(g, channel, views, a, Process(g, channel, c, a))
  {
    hide Ring.Contents, Ring.Exposed, Ring.Written, Feed, Run, WellFormed, UrlOf, Route;
    InvCallable(c, views, a);
    ReadKeeps(c, views, a);
    UnwrappedRing(c.ring, Received(views));
    FeedNext(views, c.request, NowReceived(Received(views), a));
    if a.Nothing? && views != [] {
      SameViewWaits(views, c.request);
    }
  }

  // ---- Runs ----

  /** The poll loop's treatment of a call: a connection with too many retries is destroyed. */
  function After(f: Fate): Fate {
    if (f.Proceed? || f.HandOver?) && f.state.retry > MAX_RETRIES then Removed else f
  }

  predicate PossibleRun(g: Config, channel: Channel, c: Reading, answers: seq<Answer>)
    decreases |answers|
  {
    answers == [] || (
      && Callable(c, answers[0]) && Possible(c, answers[0])
      && var f := After(Process(g, channel, c, answers[0]));
         if f.Proceed? then PossibleRun(g, channel, f.state, answers[1..]) else |answers| == 1)
  }

  function Live(g: Config, channel: Channel, c: Reading, answers: seq<Answer>): Fate
    requires PossibleRun(g, channel, c, answers)
    decreases |answers|
  {
    if answers == [] then Proceed(c)
    else
      var f := After(Process(g, channel, c, answers[0]));
      if f.Proceed? then Live(g, channel, f.state, answers[1..]) else f
  }

  /** All bytes the socket delivered. */
  function Bytes(answers: seq<Answer>): string {
    if answers == [] then "" else (if answers[0].Got? then answers[0].bytes else "") + Bytes(answers[1..])
  }

  /** What the parser has been shown after these answers. */
  function Shown(views: seq<string>, answers: seq<Answer>): seq<string>
    decreases |answers|
  {
    if answers == [] then views
    else Shown(Seen(views, NowReceived(Received(views), answers[0])), answers[1..])
  }

  lemma BytesNext(received: string, answers: seq<Answer>)
    requires answers != []
    ensures received + Bytes(answers) == NowReceived(received, answers[0]) + Bytes(answers[1..])
    ensures |answers| == 1 ==> received + Bytes(answers) == NowReceived(received, answers[0])
  {
    var a := answers[0];
    var b := if a.Got? then a.bytes else "";
    Assoc(received, b, Bytes(answers[1..]));
    assert received + "" == received;
    if |answers| == 1 {
      assert Bytes(answers[1..]) == "" && b + "" == b;
    }
  }

  /** The last answer asked a socket that had nothing. */
  predicate EndsIdle(answers: seq<Answer>) {
    answers != [] && answers[|answers| - 1].Nothing?
  }

  /** What a run leaves behind that delivered `all` and showed the parser these views. */
  ghost predicate EndsAs(g: Config, channel: Channel, shown: seq<string>, all: string, answers: seq<Answer>,
                         end: Fate) {
    match end
    case Proceed(c) => Inv(c, shown) && Received(shown) == all && (EndsIdle(answers) ==> |all| < SIZE)
    case HandOver(destination, c) =>
      && shown != [] && Last(shown) == all
      && Unwrapped(c.ring, all) && c.retry == 0 && Fed(shown, FinishOk, c.request)
      && !destination.Refused? && destination == Choice(g, channel, all, c.request)
    case Hung => shown != [] && Growing(shown) && Feed(shown).Diverges?
    case Removed => true
  }

  /** Every run: a connection that stays keeps the invariant, and one that is handed over takes along
      exactly the bytes the socket delivered. */
  lemma {:induction false} RunKeepsInv(g: Config, channel: Channel, c: Reading, views: seq<string>,
                                       answers: seq<Answer>)
    requires Inv(c, views) && PossibleRun(g, channel, c, answers)
    ensures EndsAs(g, channel, Shown(views, answers), Received(views) + Bytes(answers), answers,
                   Live(g, channel, c, answers))
    decreases |answers|
  {
    hide Process, Inv, Possible, Callable, Unwrapped, Fed, Feed, Choice, Dropped;
    if answers != [] {
      var a, rest := answers[0], answers[1..];
      var e := NowReceived(Received(views), a);
      CallKeepsInv(g, channel, c, views, a);
      var f := After(Process(g, channel, c, a));
      BytesNext(Received(views), answers);
      if f.Proceed? {
        RunKeepsInv(g, channel, f.state, Seen(views, e), rest);
        if rest == [] {
          assert e + "" == e;
        }
      } else {
        assert rest == [];
      }
    }
  }

  /** The socket never failed and was not asked in vain too often. */
  predicate Patient(answers: seq<Answer>, retry: int) {
    answers == [] ||
    match answers[0]
    case Got(_) => Patient(answers[1..], 0)
    case Nothing(temporary) => temporary && retry < MAX_RETRIES && Patient(answers[1..], retry + 1)
  }

  /** With such a socket a connection is given up only for what the client sent. */
  lemma {:induction false} WhyRemoved(g: Config, channel: Channel, c: Reading, views: seq<string>, answers: seq<Answer>)
    requires Inv(c, views) && PossibleRun(g, channel, c, answers) && Patient(answers, c.retry)
    ensures Live(g, channel, c, answers).Removed? ==>
              && answers != [] && Dropped(g, channel, Shown(views, answers), answers[|answers| - 1])
              && Last(Shown(views, answers)) == Received(views) + Bytes(answers)
    decreases |answers|
  {
    hide Process, Inv, Possible, Callable, Unwrapped, Fed, Feed, Choice, Dropped, Bytes, Run, Initial, Growing,
         WellFormed;
    if answers != [] {
      var a, rest := answers[0], answers[1..];
      var e := NowReceived(Received(views), a);
      CallKeepsInv(g, channel, c, views, a);
      var f := Process(g, channel, c, a);
      BytesNext(Received(views), answers);
      if f.Proceed? {
        CallCounts(g, channel, c, a);
        WhyRemoved(g, channel, f.state, Seen(views, e), rest);
        assert rest != [] ==> rest[|rest| - 1] == answers[|answers| - 1];
        assert Live(g, channel, c, answers) == Live(g, channel, f.state, rest);
        assert Live(g, channel, c, answers).Removed? ==> rest != [];
        assert Shown(views, answers) == Shown(Seen(views, e), rest);
      } else if f.Removed? {
        assert rest == [] && Shown(Seen(views, e), rest) == Seen(views, e);
        assert Dropped(g, channel, views + [e], a);
        DroppedIsSeen(g, channel, views, e, a);
        assert Dropped(g, channel, Shown(views, answers), a);
      }
    }
  }

  lemma DroppedIsSeen(g: Config, channel: Channel, views: seq<string>, e: string, a: Answer)
    requires Dropped(g, channel, views + [e], a) && (views == [] ==> Received(views) == "")
    ensures e != "" && Seen(views, e) == views + [e]
  {
  }

  /** No view ended inside the query string, and no two calls split the line breaks around the blank line. */
  ghost predicate Clean(views: seq<string>) {
    (forall i :: 0 <= i < |views| ==> !EndsInQuery(views[i])) && NoBreaksSplit(views)
  }

  lemma StartInv(ring: Ring)
    requires Unwrapped(ring, "")
    ensures Inv(Start(ring), [])
  {
  }

  /** The decision depends on the bytes alone. However they were split into reads, and however often the socket had
      nothing, a clean run never hangs; it waits if and only if a parse of all the bytes in one go would ask for
      more and the buffer was not full when the socket was read last; it hands the connection over if and only if
      such a parse finishes and leads somewhere, and then there; and otherwise it gives the connection up. */
  lemma DecisionFromBytes(g: Config, channel: Channel, ring: Ring, answers: seq<Answer>)
    requires Unwrapped(ring, "") && PossibleRun(g, channel, Start(ring), answers)
    requires Clean(Shown([], answers)) && Patient(answers, 0)
    ensures var all, end := Bytes(answers), Live(g, channel, Start(ring), answers);
            Decided(g, channel, all, EndsIdle(answers) && |all| == SIZE, end, Run(all, Initial()))
  {
    hide Live, Run, Choice, Unwrapped, PossibleRun, Patient, Initial, Dropped, Inv, Decided, EndsAs, Clean, Shown,
         Bytes;
    StartInv(ring);
    RunKeepsInv(g, channel, Start(ring), [], answers);
    WhyRemoved(g, channel, Start(ring), [], answers);
    var all := Bytes(answers);
    assert Received([]) + all == all;
    InitialFits(all);
    OneShot(g, channel, Shown([], answers), all, answers, Live(g, channel, Start(ring), answers), Run(all, Initial()));
  }

  lemma OneShot(g: Config, channel: Channel, shown: seq<string>, all: string, answers: seq<Answer>, end: Fate,
                o: RunResult)
    requires WellFormed(all, Initial()) && o == Run(all, Initial()) && Clean(shown)
    requires EndsAs(g, channel, shown, all, answers, end)
    requires end.Removed? ==> answers != [] && Dropped(g, channel, shown, answers[|answers| - 1]) && Last(shown) == all
    ensures Decided(g, channel, all, EndsIdle(answers) && |all| == SIZE, end, o)
  {
    hide Run, Feed, EndsInQuery, Choice, Unwrapped, Initial, WellFormed;
    if shown != [] && Growing(shown) {
      FeedAgrees(shown);
    }
    NothingWaits(all);
  }

  /** What happens to a connection that sent `all`, when the one-shot parse of it is `o`. */
  predicate Decided(g: Config, channel: Channel, all: string, overdue: bool, end: Fate, o: RunResult) {
    && o.Returned? && !end.Hung?
    && (end.Proceed? <==> o.result == NeedMoreData && !overdue)
    && (end.Proceed? && all != "" ==> o.request == end.state.request)
    && (end.HandOver? <==> o.result == FinishOk && !Choice(g, channel, all, o.request).Refused?)
    && (end.HandOver? ==> o.request == end.state.request && end.destination == Choice(g, channel, all, o.request)
                          && Unwrapped(end.state.ring, all) && end.state.retry == 0)
    && (end.Removed? <==> o.result == FinishInvalid
                          || (o.result == NeedMoreData && overdue)
                          || (o.result == FinishOk && Choice(g, channel, all, o.request).Refused?))
  }

  lemma NothingWaits(d: string)
    ensures d == "" ==> Run(d, Initial()).Returned? && Run(d, Initial()).result == NeedMoreData
  {
    if d == "" {
      var r := Initial();
      RunStops(d, r);
    }
  }

  /** Where a message should go: nowhere if its URL is refused. */
  function Wanted(g: Config, channel: Channel, m: HttpRender.Message): Destination {
    var url := HttpRequestObject.AcceptedUrl(m.url);
    if url.BadTriplet? then Refused else Route(g, channel, url.text)
  }

  predicate RoutedTo(f: Fate, end: Destination, text: string) {
    if end.Refused? then f.Removed?
    else f.HandOver? && f.destination == end && Unwrapped(f.state.ring, text) && f.state.retry == 0
  }

  /** The destination that the recovered URL leads to is the wanted one. */
  lemma ChoiceIsWanted(g: Config, channel: Channel, m: HttpRender.Message, r: Request)
    requires HttpRender.Recovers(HttpRender.Render(m), r, m)
    ensures Choice(g, channel, HttpRender.Render(m), r) == Wanted(g, channel, m)
  {
    hide HttpRender.Render, Route, HttpRequestObject.AcceptedUrl;
  }

  // ---- Well-formed requests ----

  /** What a run ended with says about what the parser was shown. */
  lemma ShownAndEnd(g: Config, channel: Channel, shown: seq<string>, all: string, answers: seq<Answer>, end: Fate)
    requires EndsAs(g, channel, shown, all, answers, end)
    requires end.Removed? ==> answers != [] && Dropped(g, channel, shown, answers[|answers| - 1]) && Last(shown) == all
    ensures Growing(shown)
    ensures end.Hung? <==> shown != [] && Feed(shown).Diverges?
    ensures !end.Hung? ==> Received(shown) == all
  {
    hide Run, Feed, Choice, Unwrapped, Initial, Growing;
  }

  ghost predicate HangsSomewhere(views: seq<string>) {
    exists i :: 0 <= i < |views| && EndsInQuery(views[i])
  }

  /** A connection whose socket does not fail hangs the server if and only if some read ended inside the query
      string. */
  lemma LiveHangsExactly(g: Config, channel: Channel, ring: Ring, answers: seq<Answer>)
    requires Unwrapped(ring, "") && PossibleRun(g, channel, Start(ring), answers) && Patient(answers, 0)
    ensures Live(g, channel, Start(ring), answers).Hung? <==> HangsSomewhere(Shown([], answers))
    ensures Growing(Shown([], answers))
    ensures !Live(g, channel, Start(ring), answers).Hung? ==> Received(Shown([], answers)) == Bytes(answers)
  {
    hide Live, Run, Choice, Unwrapped, PossibleRun, Patient, Initial, Dropped, Inv, EndsAs, Shown, Bytes, Growing, Feed,
         EndsInQuery;
    var shown := Shown([], answers);
    StartInv(ring);
    RunKeepsInv(g, channel, Start(ring), [], answers);
    WhyRemoved(g, channel, Start(ring), [], answers);
    assert Received([]) + Bytes(answers) == Bytes(answers);
    ShownAndEnd(g, channel, shown, Bytes(answers), answers, Live(g, channel, Start(ring), answers));
    if shown != [] {
      FeedHangsExactly(shown);
    }
  }

  /** Every piece that the socket delivers has at least one byte. */
  predicate Delivers(script: seq<Answer>) {
    forall i :: 0 <= i < |script| && script[i].Got? ==> script[i].bytes != ""
  }

  lemma SocketCanAnswer(c: Reading, views: seq<string>, a: Answer)
    requires Inv(c, views) && (a.Got? ==> a.bytes != "" && |Received(views)| + |a.bytes| <= SIZE)
    ensures Possible(c, a)
  {
    hide Ring.Contents, Ring.Exposed, Feed, Run, WellFormed;
    UnwrappedRing(c.ring, Received(views));
  }

  /** The calls that a connection makes whose socket answers after this script: they come to an end, or use it up. */
  lemma {:induction false} Play(g: Config, channel: Channel, c: Reading, views: seq<string>, script: seq<Answer>)
    returns (n: nat)
    requires Inv(c, views) && Delivers(script) && |Received(views)| + |Bytes(script)| <= SIZE
    ensures n <= |script| && PossibleRun(g, channel, c, script[..n])
    ensures n < |script| ==> !Live(g, channel, c, script[..n]).Proceed?
    decreases |script|
  {
    hide Process, Inv, Possible, Callable, Unwrapped, Fed, Feed, Choice, Dropped;
    n := 0;
    if script != [] {
      var a, rest := script[0], script[1..];
      var e := NowReceived(Received(views), a);
      SocketCanAnswer(c, views, a);
      CallKeepsInv(g, channel, c, views, a);
      var f := After(Process(g, channel, c, a));
      if f.Proceed? {
        var m := Play(g, channel, f.state, Seen(views, e), rest);
        n := m + 1;
        assert script[..n][1..] == rest[..m];
      } else {
        n := 1;
      }
    }
  }

  lemma {:induction false} ShownPrefix(views: seq<string>, script: seq<Answer>, n: nat)
    requires n <= |script|
    ensures Shown(views, script[..n]) <= Shown(views, script)
    decreases |script|
  {
    if script != [] {
      var next := Seen(views, NowReceived(Received(views), script[0]));
      if n > 0 {
        assert script[..n][1..] == script[1..][..n - 1];
        ShownPrefix(next, script[1..], n - 1);
      } else {
        ShownPrefix(next, script[1..], 0);
        assert script[1..][..0] == [];
      }
    }
  }

  lemma {:induction false} PatientPrefix(script: seq<Answer>, retry: int, n: nat)
    requires n <= |script| && Patient(script, retry)
    ensures Patient(script[..n], retry)
    decreases |script|
  {
    if n > 0 {
      assert script[..n][1..] == script[1..][..n - 1];
      PatientPrefix(script[1..], if script[0].Got? then 0 else retry + 1, n - 1);
    }
  }

  /** The bytes of a part of a script, and all of them only if it is the whole script. */
  lemma {:induction false} BytesPrefix(script: seq<Answer>, n: nat)
    requires n <= |script| && Delivers(script) && !EndsIdle(script)
    ensures Bytes(script[..n]) <= Bytes(script)
    ensures n < |script| ==> Bytes(script[..n]) < Bytes(script)
    decreases |script|
  {
    if script != [] {
      var rest := script[1..];
      assert !EndsIdle(rest) && Delivers(rest);
      if n > 0 {
        assert script[..n][1..] == rest[..n - 1];
        BytesPrefix(rest, n - 1);
        AfterSame(if script[0].Got? then script[0].bytes else "", Bytes(rest[..n - 1]), Bytes(rest));
      } else if rest != [] {
        BytesPrefix(rest, 0);
        assert rest[..0] == [];
      }
    }
  }

  lemma AfterSame(front: string, part: string, all: string)
    requires part <= all
    ensures front + part <= front + all && (part < all ==> front + part < front + all)
  {
  }

  lemma UnderstoodIsClean(m: HttpRender.Message, shown: seq<string>)
    requires HttpRender.ValidMessage(m) && HttpRender.Complete(m) && HttpRender.Understood(m)
    requires HttpRender.Tight(m)
    requires Growing(shown) && Received(shown) <= HttpRender.Render(m) && !HangsSomewhere(shown)
    ensures Clean(shown)
  {
    hide HttpRender.Render, HttpRender.ValidMessage, HttpRender.Complete, HttpRender.Understood, HttpRender.Tight,
         SplitsBreaks, EndsInQuery;
    forall i | 0 < i < |shown| ensures !SplitsBreaks(shown[i - 1], shown[i]) {
      LastIsLongest(shown, i);
      HttpSplits.UnderstoodIsNotSplit(m, shown[i - 1], shown[i]);
    }
  }

  /** A run over the bytes `part` of a message waits for more as long as some are missing, and then routes it. */
  lemma PartDecides(g: Config, channel: Channel, ring: Ring, m: HttpRender.Message, answers: seq<Answer>)
    requires Unwrapped(ring, "") && PossibleRun(g, channel, Start(ring), answers) && Patient(answers, 0)
    requires HttpRender.ValidMessage(m) && HttpRender.Complete(m) && HttpRender.Understood(m)
    requires HttpRender.Tight(m)
    requires Bytes(answers) <= HttpRender.Render(m) && |HttpRender.Render(m)| <= SIZE
    requires !Live(g, channel, Start(ring), answers).Hung?
    ensures if Bytes(answers) == HttpRender.Render(m)
            then RoutedTo(Live(g, channel, Start(ring), answers), Wanted(g, channel, m), HttpRender.Render(m))
            else Live(g, channel, Start(ring), answers).Proceed?
  {
    hide Run, Live, PossibleRun, Patient, Clean, Choice, Wanted, HttpRender.Render, HttpRender.ValidMessage, Shown,
         HttpRender.Recovers, HttpRender.Understood, HttpRender.Complete, HttpRender.Tight, Unwrapped, Initial, Bytes,
         EndsInQuery;
    var text, part, shown := HttpRender.Render(m), Bytes(answers), Shown([], answers);
    LiveHangsExactly(g, channel, ring, answers);
    UnderstoodIsClean(m, shown);
    DecisionFromBytes(g, channel, ring, answers);
    if part == text {
      HttpRender.ParseRender(m);
      InitialFits(text);
      ChoiceIsWanted(g, channel, m, Run(text, Initial()).request);
    } else {
      InitialFits(part);
      NoQueryEnd(shown, part);
      HttpSplits.PartWaits(m, part);
    }
  }

  lemma NoQueryEnd(shown: seq<string>, part: string)
    requires Received(shown) == part && !HangsSomewhere(shown)
    ensures !EndsInQuery(part)
  {
    if shown != [] {
      assert shown[|shown| - 1] == part;
    }
  }

  /** A well-formed request that fits the buffer is routed, or the server hangs. In whatever pieces it arrives and
      however often the socket has nothing in between: if no read ends inside the query string, the connection
      is handed over to the destination of its URL with the whole request in the ring, or dropped if it has none; and
      otherwise, exactly then, a parse call never returns. */
  lemma WellFormedRequestIsRouted(g: Config, channel: Channel, ring: Ring, m: HttpRender.Message, script: seq<Answer>)
    returns (n: nat)
    requires Unwrapped(ring, "") && Delivers(script) && Patient(script, 0) && !EndsIdle(script)
    requires Bytes(script) == HttpRender.Render(m) && |HttpRender.Render(m)| <= SIZE
    requires HttpRender.ValidMessage(m) && HttpRender.Complete(m) && HttpRender.Understood(m)
    requires HttpRender.Tight(m)
    ensures n <= |script| && PossibleRun(g, channel, Start(ring), script[..n])
    ensures var end := Live(g, channel, Start(ring), script[..n]);
            && (end.Hung? <==> HangsSomewhere(Shown([], script)))
            && (RoutedTo(end, Wanted(g, channel, m), HttpRender.Render(m)) <==> !HangsSomewhere(Shown([], script)))
  {
    hide Run, Live, PossibleRun, Patient, Wanted, HttpRender.Render, HttpRender.ValidMessage, Shown, Inv, Delivers,
         HttpRender.Understood, HttpRender.Complete, HttpRender.Tight, Unwrapped, Initial, Bytes, EndsInQuery, EndsIdle;
    StartInv(ring);
    n := Play(g, channel, Start(ring), [], script);
    PatientPrefix(script, 0, n);
    BytesPrefix(script, n);
    ShownPrefix([], script, n);
    LiveHangsExactly(g, channel, ring, script[..n]);
    if !Live(g, channel, Start(ring), script[..n]).Hung? {
      PartDecides(g, channel, ring, m, script[..n]);
      assert script[..|script|] == script;
    }
  }

  /** There is such a script for every request that fits the buffer: it arrives in one piece, and is routed. */
  lemma OnePieceIsRouted(g: Config, channel: Channel, ring: Ring, m: HttpRender.Message)
    requires Unwrapped(ring, "") && |HttpRender.Render(m)| <= SIZE
    requires HttpRender.ValidMessage(m) && HttpRender.Complete(m) && HttpRender.Understood(m)
    requires HttpRender.Tight(m)
    ensures var answers := [Got(HttpRender.Render(m))];
            && PossibleRun(g, channel, Start(ring), answers)
            && RoutedTo(Live(g, channel, Start(ring), answers), Wanted(g, channel, m), HttpRender.Render(m))
  {
    hide Run, Live, PossibleRun, Wanted, HttpRender.Render, HttpRender.ValidMessage, HttpRender.Understood,
         HttpRender.Tight, HttpRender.Complete, Unwrapped, Initial, EndsInQuery, Shown, Bytes, Patient, RoutedTo,
         HttpRender.Recovers;
    var text := HttpRender.Render(m);
    HttpRender.RenderIsText(m);
    HttpRender.ParseRender(m);
    InitialFits(text);
    HangsExactlyInQuery(text);
    OneAnswer(text);
    var n := WellFormedRequestIsRouted(g, channel, ring, m, [Got(text)]);
    assert [Got(text)][..1] == [Got(text)];
    if n == 0 {
      NothingIsNotRouted(g, channel, ring, Wanted(g, channel, m), text);
    }
  }

  lemma NothingIsNotRouted(g: Config, channel: Channel, ring: Ring, end: Destination, text: string)
    ensures PossibleRun(g, channel, Start(ring), [Got(text)][..0])
    ensures !RoutedTo(Live(g, channel, Start(ring), [Got(text)][..0]), end, text)
  {
    hide Process, Unwrapped;
  }

  lemma OneAnswer(text: string)
    requires text != ""
    ensures Shown([], [Got(text)]) == [text] && Bytes([Got(text)]) == text && Patient([Got(text)], 0)
  {
    var answers := [Got(text)];
    assert answers[1..] == [] && "" + text == text && text + "" == text && [] + [text] == [text];
  }

  /** Calls that reading can still survive. */
  function CallsLeft(received: string, retry: int): int {
    (SIZE - |received|) * (MAX_RETRIES + 2) + (MAX_RETRIES + 1 - retry)
  }

  lemma RoomLeft(c: Reading, views: seq<string>, a: Answer)
    requires Inv(c, views) && Possible(c, a)
    ensures |Received(views)| <= SIZE && c.retry >= 0
    ensures a.Got? ==> |Received(views)| < |NowReceived(Received(views), a)| <= SIZE
  {
    UnwrappedRing(c.ring, Received(views));
  }

  lemma CallCounts(g: Config, channel: Channel, c: Reading, a: Answer)
    requires Callable(c, a) && Process(g, channel, c, a).Proceed?
    ensures Process(g, channel, c, a).state.retry == if a.Got? then 0 else c.retry + 1
  {
    hide Run, Ring.Exposed, Ring.Ok, Ring.Wrapped, Ring.Written, WellFormed, UrlOf, Route;
  }

  /** Reading ends: a client that keeps a connection in this stage is cut off after a bounded number of calls. */
  lemma {:induction false} ReadingIsBounded(g: Config, channel: Channel, c: Reading, views: seq<string>,
                                            answers: seq<Answer>)
    requires Inv(c, views) && c.retry <= MAX_RETRIES && PossibleRun(g, channel, c, answers)
    ensures |answers| <= CallsLeft(Received(views), c.retry)
    decreases |answers|
  {
    hide Process, Inv, Possible, Callable;
    ReceivedFits(c, views);
    if answers != [] {
      var a := answers[0];
      CallKeepsInv(g, channel, c, views, a);
      RoomLeft(c, views, a);
      var f := After(Process(g, channel, c, a));
      if f.Proceed? {
        CallCounts(g, channel, c, a);
        ReadingIsBounded(g, channel, f.state, Seen(views, NowReceived(Received(views), a)), answers[1..]);
      }
    }
  }

  lemma ReceivedFits(c: Reading, views: seq<string>)
    requires Inv(c, views)
    ensures |Received(views)| <= SIZE && c.retry >= 0
  {
    UnwrappedRing(c.ring, Received(views));
  }

  /** Only a call that read something finishes a request. */
  lemma {:induction false} HandOverIsNotEmpty(g: Config, channel: Channel, c: Reading, views: seq<string>,
                                              answers: seq<Answer>)
    requires Inv(c, views) && PossibleRun(g, channel, c, answers)
    requires Live(g, channel, c, answers).HandOver?
    ensures Received(views) + Bytes(answers) != ""
    decreases |answers|
  {
    hide Process, Inv, Possible, Callable;
    var a := answers[0];
    CallKeepsInv(g, channel, c, views, a);
    var f := After(Process(g, channel, c, a));
    BytesNext(Received(views), answers);
    if f.Proceed? {
      HandOverIsNotEmpty(g, channel, f.state, Seen(views, NowReceived(Received(views), a)), answers[1..]);
    }
  }
}
