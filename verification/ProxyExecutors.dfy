/** The proxy executors as they are written: methods that update the connection record, its ring
    buffer and its poll registrations in place. Each is proved against the state machine of ProxyModel.
    The bytes that cross a socket are recorded in ghost fields. */
module ProxyExecutors {
  import opened ProcessResults
  import opened RingBuffer
  import opened ProxyModel
  import ProxyRuns
  import Registrations

  /** The part of the connection record that the proxy executors use. */
  class ExecutorData {
    var state: Phase
    var pollData0: Interest
    var pollData1: Interest
    var fd1Open: bool
    var bytesInPipe: int
    var retryCounter: int
    const buffer: TransferRingBuffer

    ghost var pipe: seq<char>
    ghost var toUpstream: seq<char>
    ghost var fromUpstream: seq<char>
    ghost var toClient: seq<char>
    ghost var upstreamEnded: bool

    ghost function Abs(): Conn
      reads this, buffer, buffer.buf
    {
      Conn(state, pollData0, pollData1, fd1Open, buffer.Abs(), pipe, bytesInPipe, retryCounter,
           toUpstream, fromUpstream, toClient, upstreamEnded)
    }

    constructor (buffer: TransferRingBuffer)
      requires buffer.Valid()
      ensures this.buffer == buffer && pollData0 == NotPolled && pollData1 == NotPolled && !fd1Open
      ensures bytesInPipe == 0 && retryCounter == 0
      ensures pipe == [] && toUpstream == [] && fromUpstream == [] && toClient == [] && !upstreamEnded
    {
      this.buffer := buffer;
      state := WaitConnect;
      pollData0, pollData1 := NotPolled, NotPolled;
      fd1Open := false;
      bytesInPipe, retryCounter := 0, 0;
      pipe, toUpstream, fromUpstream, toClient := [], [], [], [];
      upstreamEnded := false;
    }

    /** What is polled, as the poll loop's books are compared with it. */
    function Polled(): Registrations.View
      reads this
    {
      Registrations.View(pollData0, pollData1)
    }

    method AddPollFd(fd: Fd, interest: Interest, epollOk: bool) returns (ok: bool)
      modifies this`pollData0, this`pollData1
      ensures ok == (epollOk && old(if fd == Fd0 then pollData0 else pollData1) == NotPolled)
      ensures pollData0 == if ok && fd == Fd0 then interest else old(pollData0)
      ensures pollData1 == if ok && fd == Fd1 then interest else old(pollData1)
      ensures var ask := Registrations.Register(fd, interest, epollOk);
              ok == Registrations.Granted(old(Polled()), ask) && Polled() == Registrations.After(old(Polled()), ask)
    {
      if fd == Fd0 && pollData0 != NotPolled {
        return false;
      }
      if fd == Fd1 && pollData1 != NotPolled {
        return false;
      }
      if !epollOk {
        return false;
      }
      if fd == Fd0 {
        pollData0 := interest;
      } else {
        pollData1 := interest;
      }
      return true;
    }

    method EditPollFd(fd: Fd, interest: Interest, epollOk: bool) returns (ok: bool)
      modifies this`pollData0, this`pollData1
      ensures ok == (epollOk && old(if fd == Fd0 then pollData0 else pollData1) != NotPolled)
      ensures pollData0 == if ok && fd == Fd0 then interest else old(pollData0)
      ensures pollData1 == if ok && fd == Fd1 then interest else old(pollData1)
      ensures var ask := Registrations.Change(fd, interest, epollOk);
              ok == Registrations.Granted(old(Polled()), ask) && Polled() == Registrations.After(old(Polled()), ask)
    {
      var registered := if fd == Fd0 then pollData0 else pollData1;
      if registered == NotPolled || !epollOk {
        return false;
      }
      if fd == Fd0 {
        pollData0 := interest;
      } else {
        pollData1 := interest;
      }
      return true;
    }

    method RemovePollFd(fd: Fd, epollOk: bool) returns (ok: bool)
      modifies this`pollData0, this`pollData1
      ensures ok == (epollOk && old(if fd == Fd0 then pollData0 else pollData1) != NotPolled)
      ensures pollData0 == if ok && fd == Fd0 then NotPolled else old(pollData0)
      ensures pollData1 == if ok && fd == Fd1 then NotPolled else old(pollData1)
      ensures var ask := Registrations.Unregister(fd, epollOk);
              ok == Registrations.Granted(old(Polled()), ask) && Polled() == Registrations.After(old(Polled()), ask)
    {
      var registered := if fd == Fd0 then pollData0 else pollData1;
      if registered == NotPolled || !epollOk {
        return false;
      }
      if fd == Fd0 {
        pollData0 := NotPolled;
      } else {
        pollData1 := NotPolled;
      }
      return true;
    }

    /** The result of the removal is not looked at. */
    method CloseFd1(epollOk: bool)
      modifies this`pollData1, this`pollData0, this`fd1Open
      ensures !fd1Open && pollData0 == old(pollData0)
      ensures pollData1 == if epollOk then NotPolled else old(pollData1)
      ensures epollOk ==> Polled() == Registrations.After(old(Polled()), Registrations.CloseUpstream)
    {
      if pollData1 != NotPolled {
        var ignored := RemovePollFd(Fd1, epollOk);
      }
      fd1Open := false;
    }
  }

  /** The bytes a write system call took. */
  predicate WriteFits(a: WriteAnswer, size: nat) {
    a.Wrote? ==> 1 <= a.n <= size
  }

  /** The set-up both executors share. */
  method Up(data: ExecutorData, connectOk: bool, connected: bool, os: Os) returns (ok: bool)
    requires data.buffer.Valid() && data.retryCounter >= 0
    requires data.pollData1 == NotPolled && data.bytesInPipe == 0
    requires data.pipe == [] && data.toUpstream == [] && data.fromUpstream == [] && data.toClient == []
    requires !data.upstreamEnded
    modifies data
    ensures ok == (connectOk && ProxyModel.Up(old(data.buffer.Abs()), old(data.pollData0), old(data.retryCounter),
                                              connected, os).Started?)
    ensures ok ==> data.Abs() == ProxyModel.Up(old(data.buffer.Abs()), old(data.pollData0),
                                               old(data.retryCounter), connected, os).conn
  {
    if !connectOk {
      return false;
    }
    data.fd1Open := true;
    ok := data.AddPollFd(Fd1, ForWrite, os.addOk);
    if !ok {
      return false;
    }
    ok := data.RemovePollFd(Fd0, os.delOk);
    if !ok {
      return false;
    }
    if connected {
      data.state := ForwardRequest;
    } else {
      data.state := WaitConnect;
    }
    return true;
  }

  /** The end of process_forwardRequest, when the whole request is out. */
  method BeginResponse(k: Kind, data: ExecutorData, os: Os) returns (result: ProcessResult)
    modifies data
    ensures Outcome(result, data.Abs()) == StartResponse(k, old(data.Abs()), os)
  {
    var ok := data.EditPollFd(Fd1, ForRead, os.modOk);
    if !ok {
      return RemoveError;
    }
    if k == Splice && !os.pipeOpens {
      return RemoveError;
    }
    return Proceed;
  }

  method ProcessForwardRequest(k: Kind, data: ExecutorData, os: Os) returns (result: ProcessResult)
    requires data.buffer.Valid() && WriteFits(os.write, data.buffer.Abs().ReadRoom())
    modifies data, data.buffer`readHead, data.buffer`writeHead
    ensures data.buffer.Valid()
    ensures Outcome(result, data.Abs()) == StepForwardRequest(k, old(data.Abs()), os)
  {
    hide Ring.Wrapped, Ring.Written;
    hide Ring.Contents, Ring.Exposed, Ring.Consumed, Ring.Cleared, Ring.Ok, Ring.ReadRoom, StartResponse;
    var ok, bytes := data.buffer.StartRead();
    ExposedIsPrefix(data.buffer.Abs());
    if ok {
      match os.write {
        case Wrote(n) =>
          data.retryCounter := 0;
          data.toUpstream := data.toUpstream + bytes[..n];
          data.buffer.EndRead(n);
          if n == |bytes| {
            data.buffer.Clear();
            data.state := ForwardResponse;
            result := BeginResponse(k, data, os);
            return;
          }
          return Proceed;
        case WriteBlocked =>
          data.retryCounter := data.retryCounter + 1;
          return Proceed;
        case _ =>
          return RemoveError;
      }
    } else {
      return RemoveError;
    }
  }

  method ProcessWaitConnect(k: Kind, data: ExecutorData, os: Os) returns (result: ProcessResult)
    requires data.buffer.Valid() && WriteFits(os.write, data.buffer.Abs().ReadRoom())
    modifies data, data.buffer`readHead, data.buffer`writeHead
    ensures data.buffer.Valid()
    ensures Outcome(result, data.Abs()) == StepWaitConnect(k, old(data.Abs()), os)
  {
    match os.connect
    case Connected =>
      data.state := ForwardRequest;
      result := ProcessForwardRequest(k, data, os);
    case InProgress =>
      data.retryCounter := data.retryCounter + 1;
      return Proceed;
    case ConnectFailed =>
      return RemoveError;
  }

  class ProxyExecutorSplice {
    constructor () {}

    /** The part of process_forwardResponseWrite that follows a splice into the client's socket. */
    method ProcessDelivered(data: ExecutorData, os: Os) returns (result: ProcessResult)
      requires data.retryCounter == 0
      modifies data
      ensures Outcome(result, data.Abs()) == AfterDelivery(old(data.Abs()), os)
    {
      var ok: bool;
      if data.bytesInPipe < 0 {
        return RemoveError;
      }
      if data.state == ForwardResponseOnlyWrite {
        if data.bytesInPipe == 0 {
          return RemoveOk;
        }
      }
      if data.bytesInPipe > 0 {
        if data.pollData0 == NotPolled {
          ok := data.AddPollFd(Fd0, ForWrite, os.addOk);
          if !ok {
            return RemoveError;
          }
        }
      } else if data.bytesInPipe == 0 {
        if data.pollData0 != NotPolled {
          ok := data.RemovePollFd(Fd0, os.delOk);
          if !ok {
            return RemoveError;
          }
        }
        if data.pollData1 == NotPolled {
          ok := data.AddPollFd(Fd1, ForRead, os.addOk);
          if !ok {
            return RemoveError;
          }
        }
      }
      data.retryCounter := data.retryCounter + 1;
      return Proceed;
    }

    method ProcessForwardResponseWrite(data: ExecutorData, os: Os) returns (result: ProcessResult)
      modifies data
      ensures Outcome(result, data.Abs()) == StepSpliceWrite(old(data.Abs()), os)
    {
      var ok: bool;
      if data.bytesInPipe > 0 {
        match os.deliver {
          case WroteNothing =>
            data.retryCounter := data.retryCounter + 1;
            return Proceed;
          case WriteBlocked =>
            data.retryCounter := data.retryCounter + 1;
            if data.pollData0 == NotPolled {
              ok := data.AddPollFd(Fd0, ForWrite, os.addOk);
              if !ok {
                return RemoveError;
              }
            }
            return Proceed;
          case WriteFailed =>
            return RemoveError;
          case Wrote(n) =>
            ghost var m := if n <= |data.pipe| then n else |data.pipe|;
            data.toClient, data.pipe := data.toClient + data.pipe[..m], data.pipe[m..];
            data.bytesInPipe := data.bytesInPipe - n;
            data.retryCounter := 0;
            result := ProcessDelivered(data, os);
            return;
        }
      } else {
        if data.state == ForwardResponseOnlyWrite {
          return RemoveOk;
        }
        data.retryCounter := data.retryCounter + 1;
        return Proceed;
      }
    }

    method ProcessForwardResponseRead(data: ExecutorData, os: Os) returns (result: ProcessResult)
      modifies data
      ensures Outcome(result, data.Abs()) == StepSpliceRead(old(data.Abs()), os)
    {
      hide StepSpliceWrite, Ring.Ok;
      match os.read
      case EndOfStream =>
        data.CloseFd1(os.delOk);
        data.upstreamEnded := true;
        data.state := ForwardResponseOnlyWrite;
        result := ProcessForwardResponseWrite(data, os);
      case ReadBlocked =>
        data.retryCounter := data.retryCounter + 1;
        if data.bytesInPipe > 0 && data.pollData1 != NotPolled {
          var ok := data.RemovePollFd(Fd1, os.delOk);
          if !ok {
            return RemoveError;
          }
        }
        return Proceed;
      case ReadFailed =>
        return RemoveError;
      case Got(bytes) =>
        data.retryCounter := 0;
        data.bytesInPipe := data.bytesInPipe + |bytes|;
        data.pipe, data.fromUpstream := data.pipe + bytes, data.fromUpstream + bytes;
        result := ProcessForwardResponseWrite(data, os);
    }

    method Process(data: ExecutorData, e: Event, os: Os) returns (result: ProcessResult)
      requires data.buffer.Valid() && WriteFits(os.write, data.buffer.Abs().ReadRoom())
      modifies data, data.buffer`readHead, data.buffer`writeHead
      ensures data.buffer.Valid() && old(data.buffer.Abs()).Wrapped().Ok()
      ensures Outcome(result, data.Abs()) == ProxyModel.Process(Splice, old(data.Abs()), e, os)
    {
      WrappedKeeps(data.buffer.Abs());
      if data.state == WaitConnect && e.fd == Fd1 && e.writable {
        result := ProcessWaitConnect(Splice, data, os);
      } else if data.state == ForwardRequest && e.fd == Fd1 && e.writable {
        result := ProcessForwardRequest(Splice, data, os);
      } else if data.state == ForwardResponse && e.fd == Fd1 && e.readable {
        result := ProcessForwardResponseRead(data, os);
      } else if (data.state == ForwardResponse || data.state == ForwardResponseOnlyWrite)
                && e.fd == Fd0 && e.writable {
        result := ProcessForwardResponseWrite(data, os);
      } else {
        return RemoveError;
      }
    }

    /** A call of the poll loop on a connection of which request and response are known: whatever the operating system
        answers, the record keeps its invariant or has passed on everything. */
    method Serve(data: ExecutorData, e: Event, os: Os, ghost request: seq<char>, ghost upstream: seq<char>)
      returns (result: ProcessResult)
      requires ProxyRuns.Inv(Splice, request, upstream, data.Abs()) && ProxyRuns.Registered(data.Abs(), e)
      requires data.buffer.Valid() && Possible(Splice, upstream, data.Abs(), e, os)
      modifies data, data.buffer`readHead, data.buffer`writeHead
      ensures data.buffer.Valid()
      ensures ProxyRuns.GoodOutcome(Splice, request, upstream, Outcome(result, data.Abs()))
      ensures result == Proceed ==> !ProxyRuns.Stuck(data.Abs())
    {
      hide ProxyRuns.Inv, ProxyRuns.Registered, ProxyModel.Process, Ring.Ok, ProxyRuns.Stuck;
      ProxyRuns.CallKeepsInv(Splice, request, upstream, data.Abs(), e, os);
      result := Process(data, e, os);
      if result == Proceed {
        ProxyRuns.SpliceNeverStuck(request, upstream, data.Abs());
      }
    }
  }

  class ProxyExecutorReadWrite {
    constructor () {}

    /** Some of the bytes that were offered have been sent. */
    method ProcessSent(data: ExecutorData, bytes: seq<char>, n: nat, os: Os) returns (result: ProcessResult)
      requires data.buffer.Valid() && os.deliver == Wrote(n) && 1 <= n <= data.buffer.Abs().ReadRoom()
      requires bytes == data.buffer.Abs().Exposed()
      modifies data, data.buffer`readHead, data.buffer`writeHead
      ensures data.buffer.Valid()
      ensures Outcome(result, data.Abs()) == StepRingWrite(old(data.Abs()), os)
    {
      hide Ring.Contents, Ring.Exposed, Ring.Consumed, Ring.Ok, Ring.ReadRoom, AfterSending, Registrations.After,
           Registrations.Granted;
      ExposedIsPrefix(data.buffer.Abs());
      data.retryCounter := 0;
      data.toClient := data.toClient + bytes[..n];
      data.buffer.EndRead(n);
      result := ResumeUpstream(data, os);
    }

    method ResumeUpstream(data: ExecutorData, os: Os) returns (result: ProcessResult)
      requires data.buffer.Valid()
      modifies data`pollData0, data`pollData1
      ensures Outcome(result, data.Abs()) == AfterSending(old(data.Abs()), os)
    {
      hide Ring.Contents, Ring.Exposed, Ring.ReadRoom, Registrations.After, Registrations.Granted;
      var available := data.buffer.ReadAvailable();
      ExposedIsPrefix(data.buffer.Abs());
      if data.state == ForwardResponseOnlyWrite && !available {
        return RemoveOk;
      }
      if data.pollData1 == NotPolled && data.state == ForwardResponse {
        var ok := data.AddPollFd(Fd1, ForRead, os.addOk);
        if !ok {
          return RemoveError;
        }
      }
      return Proceed;
    }

    method ProcessForwardResponseWrite(data: ExecutorData, os: Os) returns (result: ProcessResult)
      requires data.buffer.Valid() && WriteFits(os.deliver, data.buffer.Abs().ReadRoom())
      modifies data, data.buffer`readHead, data.buffer`writeHead
      ensures data.buffer.Valid()
      ensures Outcome(result, data.Abs()) == StepRingWrite(old(data.Abs()), os)
    {
      hide Ring.Contents, Ring.Exposed, Ring.Consumed, Ring.Ok, Ring.ReadRoom, AfterSending, Registrations.After,
           Registrations.Granted;
      var ok, bytes := data.buffer.StartRead();
      ExposedIsPrefix(data.buffer.Abs());
      if ok {
        match os.deliver {
          case WriteBlocked =>
            if data.pollData0 == NotPolled {
              ok := data.AddPollFd(Fd0, ForWrite, os.addOk);
              if !ok {
                return RemoveError;
              }
            }
            data.retryCounter := data.retryCounter + 1;
            return Proceed;
          case Wrote(n) =>
            result := ProcessSent(data, bytes, n, os);
            return;
          case _ =>
            return RemoveError;
        }
      } else {
        if data.state == ForwardResponseOnlyWrite {
          return RemoveOk;
        }
        if data.pollData0 != NotPolled {
          ok := data.RemovePollFd(Fd0, os.delOk);
          if !ok {
            return RemoveError;
          }
        }
      }
      data.retryCounter := data.retryCounter + 1;
      return Proceed;
    }

    method PauseUpstream(data: ExecutorData, os: Os) returns (result: ProcessResult)
      modifies data`pollData0, data`pollData1, data`retryCounter
      ensures Outcome(result, data.Abs()) == PauseReading(old(data.Abs()), os)
    {
      if data.pollData1 != NotPolled {
        var ok := data.RemovePollFd(Fd1, os.delOk);
        if !ok {
          return RemoveError;
        }
      }
      if data.pollData0 == NotPolled {
        var ok := data.AddPollFd(Fd0, ForWrite, os.addOk);
        if !ok {
          return RemoveError;
        }
      }
      data.retryCounter := data.retryCounter + 1;
      return Proceed;
    }

    /** A read system call has stored these bytes where the ring offered room. */
    method Receive(data: ExecutorData, bytes: seq<char>)
      requires data.buffer.Valid() && |bytes| <= data.buffer.Abs().WriteRoom()
      modifies data`retryCounter, data`fromUpstream, data.buffer`writeHead, data.buffer.buf
      ensures data.buffer.Valid()
      ensures var c := old(data.Abs());
              data.Abs() == c.(retry := 0, ring := c.ring.Filled(bytes).Advanced(|bytes|),
                               fromUpstream := c.fromUpstream + bytes)
    {
      hide Ring.Contents, Ring.Exposed, Ring.Consumed, Ring.Ok, Ring.WriteRoom, Ring.Filled, Ring.Advanced;
      data.buffer.Fill(bytes);
      data.fromUpstream := data.fromUpstream + bytes;
      data.retryCounter := 0;
      data.buffer.EndWrite(|bytes|);
    }

    method ProcessForwardResponseRead(data: ExecutorData, ghost e: Event, os: Os) returns (result: ProcessResult)
      requires data.buffer.Valid() && data.buffer.Abs().Wrapped().Ok() && e.fd == Fd1
      requires os.read.Got? ==> os.read.bytes != [] && |os.read.bytes| <= data.buffer.Abs().Wrapped().WriteRoom()
                                && data.buffer.Abs().Written(os.read.bytes).Ok()
      requires RingAtDelivery(data.Abs(), e, os).Ok()
      requires WriteFits(os.deliver, RingAtDelivery(data.Abs(), e, os).ReadRoom())
      modifies data, data.buffer`readHead, data.buffer`writeHead, data.buffer.buf
      ensures data.buffer.Valid()
      ensures Outcome(result, data.Abs()) == StepRingRead(old(data.Abs()), os)
    {
      hide Ring.Contents, Ring.Exposed, Ring.Consumed, Ring.Ok, Ring.ReadRoom, Ring.WriteRoom, Ring.Wrapped,
           Ring.Filled, Ring.Advanced, StepRingWrite, PauseReading, Registrations.After, Registrations.Granted;
      var ok, at, size := data.buffer.StartWrite();
      if ok {
        match os.read {
          case EndOfStream =>
            data.CloseFd1(os.delOk);
            data.upstreamEnded := true;
            data.state := ForwardResponseOnlyWrite;
            result := ProcessForwardResponseWrite(data, os);
          case ReadBlocked =>
            data.retryCounter := data.retryCounter + 1;
            return Proceed;
          case ReadFailed =>
            return RemoveError;
          case Got(bytes) =>
            Receive(data, bytes);
            result := ProcessForwardResponseWrite(data, os);
        }
      } else {
        result := PauseUpstream(data, os);
      }
    }

    method Process(data: ExecutorData, e: Event, os: Os) returns (result: ProcessResult)
      requires data.buffer.Valid() && data.buffer.Abs().Wrapped().Ok()
      requires WriteFits(os.write, data.buffer.Abs().ReadRoom())
      requires os.read.Got? ==> os.read.bytes != [] && |os.read.bytes| <= data.buffer.Abs().Wrapped().WriteRoom()
                                && data.buffer.Abs().Written(os.read.bytes).Ok()
      requires RingAtDelivery(data.Abs(), e, os).Ok()
      requires WriteFits(os.deliver, RingAtDelivery(data.Abs(), e, os).ReadRoom())
      modifies data, data.buffer`readHead, data.buffer`writeHead, data.buffer.buf
      ensures data.buffer.Valid()
      ensures Outcome(result, data.Abs()) == ProxyModel.Process(ReadWrite, old(data.Abs()), e, os)
    {
      if data.state == WaitConnect && e.fd == Fd1 && e.writable {
        result := ProcessWaitConnect(ReadWrite, data, os);
      } else if data.state == ForwardRequest && e.fd == Fd1 && e.writable {
        result := ProcessForwardRequest(ReadWrite, data, os);
      } else if data.state == ForwardResponse && e.fd == Fd1 && e.readable {
        result := ProcessForwardResponseRead(data, e, os);
      } else if (data.state == ForwardResponse || data.state == ForwardResponseOnlyWrite)
                && e.fd == Fd0 && e.writable {
        result := ProcessForwardResponseWrite(data, os);
      } else {
        return RemoveError;
      }
    }

    /** A call of the poll loop on a connection of which request and response are known: whatever the operating system
        answers, the record keeps its invariant or has passed on everything; and it is left with nothing polled exactly
        in the one case. */
    method Serve(data: ExecutorData, e: Event, os: Os, ghost request: seq<char>, ghost upstream: seq<char>)
      returns (result: ProcessResult)
      requires ProxyRuns.Inv(ReadWrite, request, upstream, data.Abs()) && ProxyRuns.Registered(data.Abs(), e)
      requires data.buffer.Valid() && Possible(ReadWrite, upstream, data.Abs(), e, os)
      modifies data, data.buffer`readHead, data.buffer`writeHead, data.buffer.buf
      ensures data.buffer.Valid()
      ensures ProxyRuns.GoodOutcome(ReadWrite, request, upstream, Outcome(result, data.Abs()))
      ensures result == Proceed ==>
                (ProxyRuns.Stuck(data.Abs()) <==> ProxyRuns.LosesItsEvents(old(data.Abs()), e, os))
    {
      hide ProxyRuns.Inv, ProxyRuns.Registered, ProxyModel.Process, Ring.Ok, ProxyRuns.Stuck, ProxyRuns.LosesItsEvents,
           Ring.Written, Ring.Contents, Ring.Wrapped, Ring.ReadRoom, Ring.WriteRoom;
      ghost var c := data.Abs();
      WrappedKeeps(c.ring);
      if os.read.Got? {
        WrittenAppends(c.ring, os.read.bytes);
      }
      ProxyRuns.CallKeepsInv(ReadWrite, request, upstream, c, e, os);
      result := Process(data, e, os);
      if result == Proceed {
        ProxyRuns.StuckExactly(request, upstream, c, e, os);
      }
    }
  }
}
