/** The request executor as it is written: it fills the connection's ring buffer, re-enters the parser
    with everything received, and looks up a proxy. Proved against the functions of RequestModel. */
module RequestExecutorObject {
  import opened HttpSyntax
  import opened HttpMachine
  import HttpRequestObject
  import CString
  import UrlCodec
  import opened ExecutorLimits
  import ProxyModel
  import opened RingBuffer
  import opened RequestModel
  import opened RequestRuns

  /** What a process call returns, and where it sent the connection. */
  datatype Result = Stay | Handed(destination: Destination) | Drop | Endless

  /** Whether a request is being read; the other states of a record belong to the other executors. */
  datatype Stage = Invalid | ReadingRequest

  /** The part of the connection record that reading uses. */
  class ExecutorData {
    var state: Stage
    var polled0: bool
    var removeOnTimeout: bool
    /** The bits of the kind of connection; none before a request executor has taken the record over. */
    var connectionType: set<Channel>
    const buffer: TransferRingBuffer
    const request: HttpRequestObject.HttpRequest
    var retryCounter: int

    function Abs(): Reading
      reads this, buffer, buffer.buf, request
    {
      Reading(buffer.Abs(), request.Snapshot(), retryCounter)
    }

    ghost predicate Valid()
      reads this, buffer, buffer.buf, request, request.urlBuffer
    {
      && buffer.Valid() && request.Valid()
      && request.data <= buffer.Abs().Exposed()
      && request.urlBuffer != buffer.buf
    }

    constructor (buffer: TransferRingBuffer, request: HttpRequestObject.HttpRequest)
      ensures this.buffer == buffer && this.request == request && retryCounter == 0
      ensures state == Stage.Invalid && !polled0 && removeOnTimeout && connectionType == {}
    {
      state, polled0 := Stage.Invalid, false;
      removeOnTimeout, connectionType := true, {};
      this.buffer := buffer;
      this.request := request;
      retryCounter := 0;
    }
  }

  /** A read adds to what can be read in one piece. */
  lemma ExposedGrows(r: Ring, a: Answer)
    requires r.Ok() && r.readHead == 0 && r.Wrapped().Ok()
    requires a.Got? ==> |a.bytes| <= r.Wrapped().WriteRoom() && r.Written(a.bytes).Ok()
    ensures r.Exposed() <= r.Wrapped().Exposed() && r.Wrapped().readHead == 0
    ensures a.Got? ==> r.Exposed() <= r.Written(a.bytes).Exposed() && r.Written(a.bytes).readHead == 0
  {
  }

  class RequestExecutor {
    const config: Config
    const channel: Channel

    constructor (config: Config, channel: Channel)
      ensures this.config == config && this.channel == channel
    {
      this.config := config;
      this.channel := channel;
    }

    /** Prepare a record for its first request and register its descriptor for reading. */
    method Up(data: ExecutorData, epollOk: bool) returns (ok: bool)
      requires data.retryCounter == 0
      requires data.request.urlBuffer == null || data.request.urlBuffer != data.buffer.buf
      modifies data`state, data`polled0, data`removeOnTimeout, data`connectionType, data.buffer, data.request
      ensures ok == (epollOk && !old(data.polled0))
      ensures data.state == if ok then ReadingRequest else old(data.state)
      ensures data.polled0 == (ok || old(data.polled0))
      ensures data.removeOnTimeout && data.connectionType == {channel}
      ensures data.request.urlBuffer == old(data.request.urlBuffer)
      ensures data.buffer.buf == old(data.buffer.buf) || fresh(data.buffer.buf)
      ensures data.Valid() && data.Abs() == Start(data.buffer.Abs()) && Inv(data.Abs(), [])
    {
      data.removeOnTimeout := true;
      data.connectionType := {channel};
      data.buffer.Init(REQUEST_BUFFER_SIZE);
      data.request.Reset();
      StartInv(data.buffer.Abs());
      if data.polled0 || !epollOk {
        return false;
      }
      data.polled0 := true;
      data.state := ReadingRequest;
      return true;
    }

    method ReadRequest(data: ExecutorData, a: Answer) returns (ok: bool)
      requires data.Valid() && Fits(data.Abs(), a)
      requires data.buffer.readHead == 0
      modifies data`retryCounter, data.buffer`writeHead, data.buffer.buf
      ensures ok == RequestModel.ReadRequest(old(data.Abs()), a).Holding?
      ensures ok ==> data.Valid() && data.buffer.readHead == 0
                     && Holding(data.Abs()) == RequestModel.ReadRequest(old(data.Abs()), a)
    {
      hide HttpRequestObject.HttpRequest.Valid, WellFormed, Ring.Contents, Ring.Exposed, Ring.Filled, Ring.Advanced;
      ghost var before := data.buffer.Abs();
      ExposedGrows(before, a);
      var started, at, size := data.buffer.StartWrite();
      if started {
        match a {
          case Got(bytes) =>
            data.buffer.Fill(bytes);
            data.buffer.EndWrite(|bytes|);
            data.retryCounter := 0;
          case Nothing(temporary) =>
            if !temporary {
              return false;
            }
            data.retryCounter := data.retryCounter + 1;
        }
      } else {
        return false;
      }
      return true;
    }

    /** The index of the first proxy that the URL selects. */
    method FindProxy(data: ExecutorData) returns (i: nat)
      requires data.request.Valid() && data.request.state == Finish
      requires forall p <- config.proxies :: CString.NUL !in p.prefix
      ensures i == FirstMatch(config.proxies, UrlOf(data.request.data, data.request.Snapshot()).text)
    {
      ghost var url := UrlOf(data.request.data, data.request.Snapshot()).text;
      i := 0;
      assert config.proxies[0..] == config.proxies;
      while i < |config.proxies|
        invariant i <= |config.proxies|
        invariant FirstMatch(config.proxies, url) == i + FirstMatch(config.proxies[i..], url)
      {
        var selected := data.request.IsUrlPrefix(config.proxies[i].prefix);
        if selected {
          return;
        }
        assert config.proxies[i..][1..] == config.proxies[i + 1..];
        i := i + 1;
      }
    }

    /** The name of the file a URL stands for. */
    method ChooseFile(url: string) returns (result: Result)
      ensures result == if FileFor(config.root, url).Refused? then Drop else Handed(FileFor(config.root, url))
    {
      if url == "/" {
        return Handed(ToFile(config.root + "index.html"));
      }
      if |config.root| + |url| <= MAX_FILE_NAME {
        return Handed(ToFile(config.root + url));
      }
      return Drop;
    }

    /** The destination of a finished request. */
    method ChooseDestination(data: ExecutorData) returns (result: Result)
      requires data.request.Valid() && data.request.state == Finish
      requires forall p <- config.proxies :: CString.NUL !in p.prefix
      requires data.connectionType == {channel}
      ensures UrlOf(data.request.data, data.request.Snapshot()).Plain?
      ensures var d := Route(config, channel, UrlOf(data.request.data, data.request.Snapshot()).text);
              result == if d.Refused? then Drop else Handed(d)
    {
      UrlIsThere(data.request);
      hide FirstMatch, FileFor, HttpRequestObject.HttpRequest.Valid, HttpRequestObject.AcceptedUrl;
      var i := FindProxy(data);
      if i < |config.proxies| {
        assert channel in data.connectionType * config.proxies[i].accepts <==> channel in config.proxies[i].accepts;
        if data.connectionType * config.proxies[i].accepts == {} {
          return Drop;
        }
        return Handed(ToProxy(i));
      }
      var url := data.request.GetUrl();
      if url.BadTriplet? {
        return Drop;
      }
      result := ChooseFile(url.text);
    }

    lemma UrlIsThere(request: HttpRequestObject.HttpRequest)
      requires request.Valid() && request.state == Finish
      ensures request.url.End() <= |request.data|
      ensures UrlOf(request.data, request.Snapshot()).Plain?
    {
      hide UrlCodec.Decode, HttpRequestObject.AcceptedUrl, HttpRequestObject.Holds, WellFormed;
    }

    method ParseRequest(data: ExecutorData) returns (result: Result)
      requires data.Valid() && WellFormed(data.buffer.Abs().Exposed(), data.request.Snapshot())
      requires forall p <- config.proxies :: CString.NUL !in p.prefix
      requires data.connectionType == {channel}
      modifies data.request, data.request.urlBuffer
      ensures match RequestModel.ParseRequest(config, channel, old(data.Abs()))
              case Proceed(c) => result == Stay && data.Valid() && data.Abs() == c
              case HandOver(destination, c) => result == Handed(destination) && data.Valid() && data.Abs() == c
              case Removed => result == Drop
              case Hung => result == Endless
    {
      hide Run, Route, WellFormed, Ring.Exposed, HttpRequestObject.AcceptedUrl, HttpRequestObject.InRange, Ring.Ok,
           Ring.Contents;
      var ok, view := data.buffer.StartRead();
      if !ok {
        return Stay;
      }
      ghost var before := data.request.Snapshot();
      HttpRequestObject.RunFinishes(view, before);
      var answer := data.request.Parse(view);
      assert data.buffer.Abs() == old(data.buffer.Abs());
      match answer {
        case Hangs => return Endless;
        case Answer(NeedMoreData) => return Stay;
        case Answer(FinishInvalid) => return Drop;
        case Answer(FinishOk) =>
          result := ChooseDestination(data);
      }
    }

    /** Only a readable client is expected, and only while a request is being read. */
    method Process(data: ExecutorData, fd: ProxyModel.Fd, readable: bool, a: Answer) returns (result: Result)
      requires data.Valid() && Callable(data.Abs(), a) && data.buffer.readHead == 0
      requires forall p <- config.proxies :: CString.NUL !in p.prefix
      requires data.connectionType == {channel}
      modifies data`retryCounter, data.buffer`writeHead, data.buffer.buf, data.request, data.request.urlBuffer
      ensures !(data.state == ReadingRequest && fd == ProxyModel.Fd0 && readable) ==>
                result == Drop && data.Abs() == old(data.Abs())
      ensures data.state == ReadingRequest && fd == ProxyModel.Fd0 && readable ==>
                match RequestModel.Process(config, channel, old(data.Abs()), a)
                case Proceed(c) => result == Stay && data.Valid() && data.Abs() == c
                case HandOver(destination, c) => result == Handed(destination) && data.Valid() && data.Abs() == c
                case Removed => result == Drop
                case Hung => result == Endless
    {
      hide Run, Route, Ring.Exposed, Ring.Contents, Ring.Ok, Ring.Written, HttpRequestObject.HttpRequest.Valid;
      if data.state == ReadingRequest && fd == ProxyModel.Fd0 && readable {
        var ok := ReadRequest(data, a);
        if !ok {
          return Drop;
        }
        result := ParseRequest(data);
      } else {
        return Drop;
      }
    }

    /** The model's word for what a call returned. */
    function FateOf(result: Result, c: Reading): Fate {
      match result
      case Stay => Proceed(c)
      case Handed(destination) => HandOver(destination, c)
      case Drop => Removed
      case Endless => Hung
    }

    /** A call of the poll loop on a connection whose parser was shown `views`: whatever the socket answers, the record
        keeps its invariant, or is handed over with everything received, or is given up for a stated reason. */
    method Serve(data: ExecutorData, a: Answer, ghost views: seq<string>) returns (result: Result)
      requires data.Valid() && data.state == ReadingRequest && Inv(data.Abs(), views) && Possible(data.Abs(), a)
      requires forall p <- config.proxies :: CString.NUL !in p.prefix
      requires data.connectionType == {channel}
      modifies data`retryCounter, data.buffer`writeHead, data.buffer.buf, data.request, data.request.urlBuffer
      ensures GoodOutcome(config, channel, views, a, FateOf(result, data.Abs()))
      ensures result == Stay || result.Handed? ==> data.Valid()
    {
      hide Inv, Possible, RequestModel.Process, Callable, ExecutorData.Valid, GoodOutcome, Ring.Contents;
      CallKeepsInv(config, channel, data.Abs(), views, a);
      FrontOfBuffer(data.Abs(), views);
      result := Process(data, ProxyModel.Fd0, true, a);
    }

    lemma FrontOfBuffer(c: Reading, views: seq<string>)
      requires Inv(c, views)
      ensures c.ring.readHead == 0
    {
    }
  }
}
