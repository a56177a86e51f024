/** Both proxy executors as state machines over one connection: what a process call does with the
    answers of the operating system, which is the only source of nondeterminism
    (src/executors/ProxyExecutorSplice.cpp, src/executors/ProxyExecutorReadWrite.cpp). */
module ProxyModel {
  import opened ProcessResults
  import opened RingBuffer

  /** Which of the two executors forwards the response. */
  datatype Kind = Splice | ReadWrite

  /** What a descriptor is registered for; a null poll record is `NotPolled`. */
  datatype Interest = NotPolled | ForRead | ForWrite

  datatype Phase = WaitConnect | ForwardRequest | ForwardResponse | ForwardResponseOnlyWrite

  /** The connection record, the kernel's pipe, and the bytes that have crossed each socket so far. */
  datatype Conn = Conn(
    phase: Phase,
    poll0: Interest,
    poll1: Interest,
    upstreamOpen: bool,
    ring: Ring,
    pipe: seq<char>,
    bytesInPipe: int,
    retry: int,
    toUpstream: seq<char>,
    fromUpstream: seq<char>,
    toClient: seq<char>,
    ended: bool)

  datatype ConnectAnswer = Connected | InProgress | ConnectFailed

  datatype WriteAnswer = Wrote(n: nat) | WroteNothing | WriteBlocked | WriteFailed

  datatype ReadAnswer = Got(bytes: seq<char>) | EndOfStream | ReadBlocked | ReadFailed

  /** The answers to the system calls that one process call may make. */
  datatype Os = Os(
    connect: ConnectAnswer,
    write: WriteAnswer,
    read: ReadAnswer,
    deliver: WriteAnswer,
    pipeOpens: bool,
    addOk: bool,
    modOk: bool,
    delOk: bool)

  datatype Fd = Fd0 | Fd1

  /** What epoll reports for a descriptor; `hangup` is EPOLLRDHUP, EPOLLHUP or EPOLLERR, which every descriptor is
      registered for. */
  datatype Event = Event(fd: Fd, readable: bool, writable: bool, hangup: bool)

  datatype Outcome = Outcome(result: ProcessResult, conn: Conn)

  const SPLICE_LIMIT: nat := 100000

  function Retry(c: Conn): Outcome {
    Outcome(Proceed, c.(retry := c.retry + 1))
  }

  // ---- Before the response: the same steps in both executors ----

  /** The request is out: from now on the upstream's descriptor is read. */
  function StartResponse(k: Kind, c: Conn, os: Os): Outcome {
    if c.poll1.NotPolled? || !os.modOk then Outcome(RemoveError, c)
    else Outcome(if k.Splice? && !os.pipeOpens then RemoveError else Proceed, c.(poll1 := ForRead))
  }

  function StepForwardRequest(k: Kind, c: Conn, os: Os): Outcome
    requires c.ring.Ok()
  {
    var size := c.ring.ReadRoom();
    if size == 0 then Outcome(RemoveError, c)
    else match os.write
      case Wrote(n) =>
        var sent := c.(retry := 0, ring := c.ring.Consumed(n),
                       toUpstream := c.toUpstream + c.ring.Exposed()[..if n <= size then n else size]);
        if n != size then Outcome(Proceed, sent)
        else
          StartResponse(k, sent.(ring := sent.ring.Cleared(), phase := ForwardResponse), os)
      case WriteBlocked => Retry(c)
      case _ => Outcome(RemoveError, c)
  }

  function StepWaitConnect(k: Kind, c: Conn, os: Os): Outcome
    requires c.ring.Ok()
  {
    match os.connect
    case Connected => StepForwardRequest(k, c.(phase := ForwardRequest), os)
    case InProgress => Retry(c)
    case ConnectFailed => Outcome(RemoveError, c)
  }

  // ---- The response through a pipe ----

  /** What is polled once some of the pipe was delivered. */
  function AfterDelivery(c: Conn, os: Os): Outcome {
    if c.bytesInPipe < 0 then Outcome(RemoveError, c)
    else if c.phase.ForwardResponseOnlyWrite? && c.bytesInPipe == 0 then Outcome(RemoveOk, c)
    else if c.bytesInPipe > 0 then
      if c.poll0.NotPolled? then
        if os.addOk then Outcome(Proceed, c.(poll0 := ForWrite, retry := 1))
        else Outcome(RemoveError, c)
      else Outcome(Proceed, c.(retry := 1))
    else if !c.poll0.NotPolled? && !os.delOk then Outcome(RemoveError, c)
    else
      var quiet := c.(poll0 := NotPolled);
      if quiet.poll1.NotPolled? && !os.addOk then Outcome(RemoveError, quiet)
      else Outcome(Proceed, quiet.(poll1 := if quiet.poll1.NotPolled? then ForRead else quiet.poll1, retry := 1))
  }

  function StepSpliceWrite(c: Conn, os: Os): Outcome {
    if c.bytesInPipe > 0 then
      match os.deliver
      case WroteNothing => Retry(c)
      case WriteBlocked =>
        if c.poll0.NotPolled? then
          if os.addOk then Outcome(Proceed, c.(retry := c.retry + 1, poll0 := ForWrite))
          else Outcome(RemoveError, c.(retry := c.retry + 1))
        else Retry(c)
      case WriteFailed => Outcome(RemoveError, c)
      case Wrote(n) =>
        var m := if n <= |c.pipe| then n else |c.pipe|;
        var moved := c.(bytesInPipe := c.bytesInPipe - n, retry := 0,
                        toClient := c.toClient + c.pipe[..m], pipe := c.pipe[m..]);
        AfterDelivery(moved, os)
    else if c.phase.ForwardResponseOnlyWrite? then Outcome(RemoveOk, c)
    else Retry(c)
  }

  /** closeFd ignores the result of its removal: the record stays registered if that failed. */
  function UpstreamClosed(c: Conn, os: Os): Conn {
    c.(poll1 := if os.delOk then NotPolled else c.poll1, upstreamOpen := false, ended := true,
       phase := ForwardResponseOnlyWrite)
  }

  function StepSpliceRead(c: Conn, os: Os): Outcome {
    match os.read
    case EndOfStream => StepSpliceWrite(UpstreamClosed(c, os), os)
    case ReadBlocked =>
      var waiting := c.(retry := c.retry + 1);
      if c.bytesInPipe > 0 && !c.poll1.NotPolled? then
        if os.delOk then Outcome(Proceed, waiting.(poll1 := NotPolled)) else Outcome(RemoveError, waiting)
      else Outcome(Proceed, waiting)
    case ReadFailed => Outcome(RemoveError, c)
    case Got(bytes) =>
      StepSpliceWrite(c.(retry := 0, bytesInPipe := c.bytesInPipe + |bytes|, pipe := c.pipe + bytes,
                         fromUpstream := c.fromUpstream + bytes), os)
  }

  // ---- The response through the ring buffer ----

  /** What is polled once some of the ring was sent. */
  function AfterSending(c: Conn, os: Os): Outcome {
    if c.phase.ForwardResponseOnlyWrite? && c.ring.Ok() && c.ring.ReadRoom() == 0 then Outcome(RemoveOk, c)
    else if c.poll1.NotPolled? && c.phase.ForwardResponse? then
      if os.addOk then Outcome(Proceed, c.(poll1 := ForRead)) else Outcome(RemoveError, c)
    else Outcome(Proceed, c)
  }

  function StepRingWrite(c: Conn, os: Os): Outcome
    requires c.ring.Ok()
  {
    var size := c.ring.ReadRoom();
    if size > 0 then
      match os.deliver
      case Wrote(n) =>
        var moved := c.(retry := 0, ring := c.ring.Consumed(n),
                        toClient := c.toClient + c.ring.Exposed()[..if n <= size then n else size]);
        AfterSending(moved, os)
      case WriteBlocked =>
        if c.poll0.NotPolled? then
          if os.addOk then Outcome(Proceed, c.(retry := c.retry + 1, poll0 := ForWrite))
          else Outcome(RemoveError, c)
        else Retry(c)
      case _ => Outcome(RemoveError, c)
    else if c.phase.ForwardResponseOnlyWrite? then Outcome(RemoveOk, c)
    else if c.poll0.NotPolled? then Retry(c)
    else if os.delOk then Outcome(Proceed, c.(retry := c.retry + 1, poll0 := NotPolled))
    else Outcome(RemoveError, c)
  }

  /** The ring is full: the upstream has to wait until the client has taken some of it. */
  function PauseReading(c: Conn, os: Os): Outcome {
    if !c.poll1.NotPolled? && !os.delOk then Outcome(RemoveError, c)
    else
      var paused := c.(poll1 := NotPolled);
      if paused.poll0.NotPolled? && !os.addOk then Outcome(RemoveError, paused)
      else Retry(paused.(poll0 := if paused.poll0.NotPolled? then ForWrite else paused.poll0))
  }

  function StepRingRead(c: Conn, os: Os): Outcome
    requires c.ring.Ok() && c.ring.Wrapped().Ok()
    requires os.read.Got? ==>
               |os.read.bytes| <= c.ring.Wrapped().WriteRoom() && c.ring.Written(os.read.bytes).Ok()
  {
    var offered := c.(ring := c.ring.Wrapped());
    if offered.ring.WriteRoom() > 0 then
      match os.read
      case Got(bytes) =>
        StepRingWrite(c.(retry := 0, ring := c.ring.Written(bytes), fromUpstream := c.fromUpstream + bytes), os)
      case EndOfStream => StepRingWrite(UpstreamClosed(offered, os), os)
      case ReadBlocked => Retry(offered)
      case ReadFailed => Outcome(RemoveError, offered)
    else PauseReading(offered, os)
  }

  // ---- Dispatch ----

  /** The state and the event that one of the four steps is written for. */
  predicate Expected(c: Conn, e: Event) {
    match c.phase
    case WaitConnect => e.fd == Fd1 && e.writable
    case ForwardRequest => e.fd == Fd1 && e.writable
    case ForwardResponse => (e.fd == Fd1 && e.readable) || (e.fd == Fd0 && e.writable)
    case ForwardResponseOnlyWrite => e.fd == Fd0 && e.writable
  }

  /** What the kernel may answer in this state: counts within what was asked for, the next bytes of
      the upstream's stream, end of stream only after its last byte, splice moving something out of a
      non-empty pipe, and epoll forgetting a registered descriptor when told to. */
  ghost predicate Possible(k: Kind, upstream: seq<char>, c: Conn, e: Event, os: Os)
    requires c.ring.Ok()
  {
    && c.ring.Wrapped().Ok()
    && (os.write.Wrote? ==> 1 <= os.write.n <= c.ring.ReadRoom())
    && os.delOk
    && (os.read.Got? ==> os.read.bytes != [] && c.fromUpstream + os.read.bytes <= upstream)
    && (os.read.EndOfStream? ==> c.fromUpstream == upstream)
    && match k
       case Splice =>
         && (os.read.Got? ==> |os.read.bytes| <= SPLICE_LIMIT)
         && !os.deliver.WroteNothing?
         && (os.deliver.Wrote? ==> 1 <= os.deliver.n <= |PipeAtDelivery(c, e, os)|)
       case ReadWrite =>
         && (os.read.Got? ==> |os.read.bytes| <= c.ring.Wrapped().WriteRoom() && c.ring.Written(os.read.bytes).Ok())
         && (os.deliver.Wrote? ==>
               RingAtDelivery(c, e, os).Ok() && 1 <= os.deliver.n <= RingAtDelivery(c, e, os).ReadRoom())
  }

  function PipeAtDelivery(c: Conn, e: Event, os: Os): seq<char> {
    if e.fd == Fd1 && os.read.Got? then c.pipe + os.read.bytes else c.pipe
  }

  function RingAtDelivery(c: Conn, e: Event, os: Os): Ring
    requires c.ring.Ok() && c.ring.Wrapped().Ok()
    requires os.read.Got? ==> |os.read.bytes| <= c.ring.Wrapped().WriteRoom()
  {
    if e.fd == Fd0 then c.ring
    else if os.read.Got? then c.ring.Written(os.read.bytes)
    else c.ring.Wrapped()
  }

  /** One process call. */
  function Process(k: Kind, c: Conn, e: Event, os: Os): Outcome
    requires c.ring.Ok() && c.ring.Wrapped().Ok()
    requires k.ReadWrite? && os.read.Got? ==>
               |os.read.bytes| <= c.ring.Wrapped().WriteRoom() && c.ring.Written(os.read.bytes).Ok()
  {
    if !Expected(c, e) then Outcome(RemoveError, c)
    else match c.phase
      case WaitConnect => StepWaitConnect(k, c, os)
      case ForwardRequest => StepForwardRequest(k, c, os)
      case _ =>
        if e.fd == Fd1 then (if k.Splice? then StepSpliceRead(c, os) else StepRingRead(c, os))
        else (if k.Splice? then StepSpliceWrite(c, os) else StepRingWrite(c, os))
  }

  /** The executor's set-up after the request was read; `None` is a failure. */
  datatype Started = NotStarted | Started(conn: Conn)

  function Up(ring: Ring, poll0: Interest, retry: int, connected: bool, os: Os): Started {
    if !os.addOk || poll0.NotPolled? || !os.delOk then NotStarted
    else Started(Conn(if connected then ForwardRequest else WaitConnect, NotPolled, ForWrite, true,
                      ring, [], 0, retry, [], [], [], false))
  }
}
