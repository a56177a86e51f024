/** Reading a request from a client (src/executors/RequestExecutor.cpp): every call reads what the
    socket has, parses everything received so far, and decides where the connection goes. */
module RequestModel {
  import opened HttpSyntax
  import opened HttpMachine
  import HttpRequestObject
  import UrlCodec
  import UrlPrefix
  import opened RingBuffer

  const MAX_FILE_NAME: nat := 300

  datatype Channel = Clear | Ssl

  datatype Proxy = Proxy(prefix: string, accepts: set<Channel>)

  /** `root` is the document folder with a slash behind it. */
  datatype Config = Config(proxies: seq<Proxy>, root: string)

  datatype Destination = ToProxy(index: nat) | ToFile(name: string) | Refused

  /** The first proxy whose prefix selects the URL, or the number of proxies. */
  function FirstMatch(proxies: seq<Proxy>, url: string): (i: nat)
    ensures i <= |proxies|
  {
    hide UrlPrefix.Selects;
    if proxies == [] || UrlPrefix.Selects(proxies[0].prefix, url) then 0
    else 1 + FirstMatch(proxies[1..], url)
  }

  lemma {:induction false} FirstMatchIsFirst(proxies: seq<Proxy>, url: string, i: nat)
    requires i <= |proxies|
    ensures FirstMatch(proxies, url) == i <==>
              && (i < |proxies| ==> UrlPrefix.Selects(proxies[i].prefix, url))
              && (forall j :: 0 <= j < i ==> !UrlPrefix.Selects(proxies[j].prefix, url))
  {
    hide UrlPrefix.Selects;
    if proxies != [] && !UrlPrefix.Selects(proxies[0].prefix, url) && i > 0 {
      var rest := proxies[1..];
      FirstMatchIsFirst(rest, url, i - 1);
      assert i < |proxies| ==> rest[i - 1] == proxies[i];
      assert forall j :: 0 <= j < i - 1 ==> rest[j] == proxies[j + 1];
      assert (forall j :: 0 <= j < i ==> !UrlPrefix.Selects(proxies[j].prefix, url)) <==>
             (forall j :: 0 <= j < i - 1 ==> !UrlPrefix.Selects(rest[j].prefix, url)) by {
        if forall j :: 0 <= j < i - 1 ==> !UrlPrefix.Selects(rest[j].prefix, url) {
          forall j | 0 <= j < i ensures !UrlPrefix.Selects(proxies[j].prefix, url) {
            if j > 0 {
              assert !UrlPrefix.Selects(rest[j - 1].prefix, url);
            }
          }
        }
      }
    }
  }

  function FileFor(root: string, url: string): Destination {
    if url == "/" then ToFile(root + "index.html")
    else if |root| + |url| <= MAX_FILE_NAME then ToFile(root + url)
    else Refused
  }

  /** The name of the file fits the loop's buffer, except exactly for the index of a document folder of more than 290
      characters, which is appended without a look at the length. */
  lemma FileNameFits(root: string, url: string)
    requires FileFor(root, url).ToFile?
    ensures |FileFor(root, url).name| <= MAX_FILE_NAME <==> !(url == "/" && |root| > 290)
  {
    assert |"index.html"| == 10;
  }

  function Route(g: Config, channel: Channel, url: string): Destination {
    var i := FirstMatch(g.proxies, url);
    if i == |g.proxies| then FileFor(g.root, url)
    else if channel in g.proxies[i].accepts then ToProxy(i)
    else Refused
  }

  // ---- One call ----

  /** The part of the connection record that reading uses. */
  datatype Reading = Reading(ring: Ring, request: Request, retry: int)

  /** What the socket answers. An end of stream is `Nothing`, and so is an error; `temporary` says that
      errno holds EWOULDBLOCK, EAGAIN or EINTR, which an end of stream leaves as it was. */
  datatype Answer = Got(bytes: seq<char>) | Nothing(temporary: bool)

  datatype Fate = Proceed(state: Reading) | HandOver(destination: Destination, state: Reading) | Removed | Hung

  function Start(ring: Ring): Reading {
    Reading(ring, Initial(), 0)
  }

  predicate Fits(c: Reading, a: Answer) {
    && c.ring.Ok() && c.ring.Wrapped().Ok()
    && (a.Got? ==> |a.bytes| <= c.ring.Wrapped().WriteRoom() && c.ring.Written(a.bytes).Ok())
  }

  /** The record after the read; `None` if the connection is given up. */
  datatype AfterRead = GivenUp | Holding(state: Reading)

  function ReadRequest(c: Reading, a: Answer): (r: AfterRead)
    requires Fits(c, a)
    ensures r.Holding? ==> r.state.ring.Ok() && r.state.request == c.request
  {
    if c.ring.Wrapped().WriteRoom() == 0 then GivenUp
    else match a
      case Got(bytes) => Holding(c.(ring := c.ring.Written(bytes), retry := 0))
      case Nothing(temporary) =>
        if temporary then Holding(c.(ring := c.ring.Wrapped(), retry := c.retry + 1)) else GivenUp
  }

  /** Parse what is readable in one piece and choose a destination. */
  function ParseRequest(g: Config, channel: Channel, c: Reading): Fate
    requires c.ring.Ok() && WellFormed(c.ring.Exposed(), c.request)
  {
    var view := c.ring.Exposed();
    if view == "" then Proceed(c)
    else
      RunKeeps(view, c.request);
      match Run(view, c.request)
      case Diverges => Hung
      case Returned(NeedMoreData, r) => Proceed(c.(request := r))
      case Returned(FinishInvalid, _) => Removed
      case Returned(FinishOk, r) =>
        var url := UrlOf(view, r);
        if url.BadTriplet? then Removed
        else
          var destination := Route(g, channel, url.text);
          if destination.Refused? then Removed else HandOver(destination, c.(request := r))
  }

  /** The decoded URL of a finished parse. */
  function UrlOf(view: string, r: Request): UrlCodec.Decoded {
    if r.url.End() <= |view| then HttpRequestObject.AcceptedUrl(Slice(view, r.url)) else UrlCodec.BadTriplet
  }

  predicate Callable(c: Reading, a: Answer) {
    Fits(c, a) && var r := ReadRequest(c, a); r.Holding? ==> WellFormed(r.state.ring.Exposed(), c.request)
  }

  function Process(g: Config, channel: Channel, c: Reading, a: Answer): Fate
    requires Callable(c, a)
  {
    var r := ReadRequest(c, a);
    if r.GivenUp? then Removed else ParseRequest(g, channel, r.state)
  }

  /** A file name goes on behind the folder without two adjacent dots. */
  predicate StaysIn(root: string, name: string) {
    root <= name && forall i :: |root| < i < |name| ==> !(name[i - 1] == '.' && name[i] == '.')
  }

  lemma FileForStaysIn(root: string, url: string)
    requires UrlCodec.UrlAllowed(url) && FileFor(root, url).ToFile?
    ensures StaysIn(root, FileFor(root, url).name)
  {
    hide UrlCodec.CheckSymbol;
    var name := FileFor(root, url).name;
    if url != "/" {
      assert forall i :: |root| <= i < |name| ==> name[i] == url[i - |root|];
    }
  }

  /** What is handed over to the file executor is the file of an allowed URL. */
  lemma FileIsOfUrl(g: Config, channel: Channel, c: Reading, a: Answer) returns (url: string)
    requires Callable(c, a)
    requires Process(g, channel, c, a).HandOver? && Process(g, channel, c, a).destination.ToFile?
    ensures UrlCodec.UrlAllowed(url) && Process(g, channel, c, a).destination == FileFor(g.root, url)
  {
    hide Run, Ring.Ok, Ring.Exposed, FirstMatch, WellFormed, UrlCodec.UrlAllowed, FileFor;
    var view := ReadRequest(c, a).state.ring.Exposed();
    url := UrlOf(view, Run(view, c.request).request).text;
  }

  /** A request never names a file outside the document folder: what follows the folder in the file name
      is the folder's index or has no two adjacent dots. */
  lemma FilesStayInRoot(g: Config, channel: Channel, c: Reading, a: Answer)
    requires Callable(c, a)
    requires Process(g, channel, c, a).HandOver? && Process(g, channel, c, a).destination.ToFile?
    ensures StaysIn(g.root, Process(g, channel, c, a).destination.name)
  {
    hide Process, StaysIn, FileFor, UrlCodec.UrlAllowed, Callable;
    var url := FileIsOfUrl(g, channel, c, a);
    FileForStaysIn(g.root, url);
  }
}
