/** Whole runs of the proxy executors: no byte is lost or reordered, the connection is never left
    without an event to wait for (with the one exception of the read/write executor), and it is
    removed after a bounded number of calls. */
module ProxyRuns {
  import opened ExecutorLimits
  import opened RingBuffer
  import opened ProcessResults
  import opened ProxyModel
  import opened Sequences

  // ---- What every reachable state satisfies ----

  ghost predicate RequestPhase(request: seq<char>, c: Conn) {
    && (c.phase == WaitConnect || c.phase == ForwardRequest)
    && c.poll1 == ForWrite && c.poll0 == NotPolled && c.upstreamOpen && !c.ended
    && c.ring.Ok() && c.ring.readHead <= c.ring.writeHead && c.ring.Contents() != []
    && c.toUpstream + c.ring.Contents() == request
    && c.fromUpstream == [] && c.toClient == [] && c.pipe == [] && c.bytesInPipe == 0
  }

  /** The response bytes between the two sockets. */
  ghost function InTransit(k: Kind, c: Conn): seq<char>
    requires c.ring.Ok()
  {
    if k.Splice? then c.pipe else c.ring.Contents()
  }

  /** The response phase, also in the middle of a call, just before the client's socket is written. */
  ghost predicate Delivering(k: Kind, request: seq<char>, upstream: seq<char>, c: Conn) {
    && (c.phase == ForwardResponse || c.phase == ForwardResponseOnlyWrite)
    && c.ring.Ok() && |c.ring.store| == REQUEST_BUFFER_SIZE
    && c.toUpstream == request
    && c.toClient + InTransit(k, c) == c.fromUpstream <= upstream
    && c.bytesInPipe == |c.pipe|
    && (k.Splice? ==> c.ring.Contents() == [])
    && (k.ReadWrite? ==> c.pipe == [])
    && c.poll0 != ForRead && c.poll1 != ForWrite
    && (c.phase == ForwardResponse ==> c.upstreamOpen && !c.ended)
    && (c.phase == ForwardResponseOnlyWrite ==>
          !c.upstreamOpen && c.ended && c.fromUpstream == upstream && c.poll1 == NotPolled)
  }

  ghost predicate ResponsePhase(k: Kind, request: seq<char>, upstream: seq<char>, c: Conn) {
    Delivering(k, request, upstream, c) && (c.phase == ForwardResponseOnlyWrite ==> InTransit(k, c) != [])
  }

  /** Back-pressure: some event that makes progress possible is registered. */
  ghost predicate Waits(k: Kind, c: Conn)
    requires c.ring.Ok()
  {
    match c.phase
    case WaitConnect => c.poll1 == ForWrite
    case ForwardRequest => c.poll1 == ForWrite
    case ForwardResponse =>
      if k.Splice? then
        (c.pipe != [] ==> c.poll0 == ForWrite)
        && (c.pipe == [] ==> c.poll1 == ForRead && c.poll0 == NotPolled)
      else c.poll1 == ForRead || (c.ring.Contents() != [] && c.poll0 == ForWrite)
    case ForwardResponseOnlyWrite => c.poll0 == ForWrite
  }

  ghost predicate Inv(k: Kind, request: seq<char>, upstream: seq<char>, c: Conn) {
    && 0 <= c.retry
    && c.ring.Ok() && |c.ring.store| == REQUEST_BUFFER_SIZE
    && (RequestPhase(request, c) || ResponsePhase(k, request, upstream, c))
    && (k.Splice? || c.phase != ForwardResponseOnlyWrite ==> Waits(k, c))
  }

  /** The event carries the bit that the descriptor is registered for. */
  predicate AskedFor(c: Conn, e: Event) {
    var interest := if e.fd == Fd0 then c.poll0 else c.poll1;
    (interest == ForRead && e.readable) || (interest == ForWrite && e.writable)
  }

  /** The events that reach an executor: what was asked for, or a hang-up of the upstream's descriptor. The poll loop
      takes a hang-up of the client's descriptor itself. */
  predicate Registered(c: Conn, e: Event) {
    match e.fd
    case Fd0 => AskedFor(c, e) && !e.hangup
    case Fd1 => AskedFor(c, e) || (e.hangup && c.poll1 != NotPolled)
  }

  lemma UpInv(k: Kind, ring: Ring, retry: nat, poll0: Interest, connected: bool, os: Os, upstream: seq<char>)
    requires ring.Ok() && ring.readHead == 0 && |ring.store| == REQUEST_BUFFER_SIZE && ring.Contents() != []
    requires Up(ring, poll0, retry, connected, os).Started?
    ensures Inv(k, ring.Contents(), upstream, Up(ring, poll0, retry, connected, os).conn)
  {
  }

  /** An event reaches the step that was written for it, with exactly one exception: the upstream's descriptor hung
      up and is not ready for what it was registered for. */
  lemma RefusedExactly(k: Kind, request: seq<char>, upstream: seq<char>, c: Conn, e: Event)
    requires Inv(k, request, upstream, c) && Registered(c, e)
    ensures !Expected(c, e) <==> e.fd == Fd1 && e.hangup && !AskedFor(c, e)
  {
  }

  /** That event drops the connection, in every state in which the upstream's descriptor is polled: an upstream that
      shuts down its side while its socket takes no more of the request ends the connection. */
  lemma HangupDrops(k: Kind, request: seq<char>, upstream: seq<char>, c: Conn, os: Os)
    requires Inv(k, request, upstream, c) && c.poll1 != NotPolled && Possible(k, upstream, c, Hangup(), os)
    ensures Registered(c, Hangup()) && Process(k, c, Hangup(), os) == Outcome(RemoveError, c)
  {
    Callable(k, upstream, c, Hangup(), os);
    RefusedExactly(k, request, upstream, c, Hangup());
  }

  function Hangup(): Event {
    Event(Fd1, false, false, true)
  }

  // ---- One call ----

  /** What one call leaves behind, whatever the operating system answered. */
  ghost predicate GoodOutcome(k: Kind, request: seq<char>, upstream: seq<char>, o: Outcome) {
    match o.result
    case Proceed => Inv(k, request, upstream, o.conn)
    case RemoveOk => o.conn.ended && o.conn.toClient == o.conn.fromUpstream == upstream && o.conn.toUpstream == request
    case RemoveError => true
    case Shutdown => false
  }

  lemma RequestForwarded(k: Kind, request: seq<char>, upstream: seq<char>, c: Conn, os: Os)
    requires RequestPhase(request, c) && 0 <= c.retry && |c.ring.store| == REQUEST_BUFFER_SIZE
    requires os.write.Wrote? ==> 1 <= os.write.n <= c.ring.ReadRoom()
    ensures GoodOutcome(k, request, upstream, StepForwardRequest(k, c, os))
    ensures StepForwardRequest(k, c, os).result != RemoveOk
  {
    ExposedIsPrefix(c.ring);
    if os.write.Wrote? {
      var n := os.write.n;
      ConsumedDrops(c.ring, n);
      assert c.ring.Contents() == c.ring.Exposed()[..n] + c.ring.Contents()[n..];
      assert (c.toUpstream + c.ring.Exposed()[..n]) + c.ring.Contents()[n..] == request;
      if n == c.ring.ReadRoom() {
        assert c.ring.Contents()[n..] == [];
        assert c.ring.Consumed(n).Cleared().Ok() && c.ring.Consumed(n).Cleared().Contents() == [];
      }
    }
  }

  lemma SpliceDelivered(request: seq<char>, upstream: seq<char>, c: Conn, os: Os)
    requires 0 <= c.retry && Delivering(Splice, request, upstream, c)
    requires c.phase == ForwardResponse && c.pipe == [] ==> c.poll1 == ForRead && c.poll0 == NotPolled
    requires os.delOk && !os.deliver.WroteNothing?
    requires os.deliver.Wrote? ==> 1 <= os.deliver.n <= |c.pipe|
    ensures GoodOutcome(Splice, request, upstream, StepSpliceWrite(c, os))
  {
    hide Ring.Exposed, Ring.Consumed, StepSpliceRead;
    if c.bytesInPipe > 0 && os.deliver.Wrote? {
      var n := os.deliver.n;
      assert c.pipe == c.pipe[..n] + c.pipe[n..];
      assert (c.toClient + c.pipe[..n]) + c.pipe[n..] == c.fromUpstream;
    }
  }

  lemma SpliceReceived(request: seq<char>, upstream: seq<char>, c: Conn, e: Event, os: Os)
    requires Inv(Splice, request, upstream, c) && c.phase == ForwardResponse && e.fd == Fd1
    requires Possible(Splice, upstream, c, e, os)
    ensures GoodOutcome(Splice, request, upstream, StepSpliceRead(c, os))
  {
    match os.read
    case EndOfStream => SpliceDelivered(request, upstream, UpstreamClosed(c, os), os);
    case ReadBlocked =>
    case ReadFailed =>
    case Got(bytes) =>
      var got := c.(retry := 0, bytesInPipe := c.bytesInPipe + |bytes|, pipe := c.pipe + bytes,
                    fromUpstream := c.fromUpstream + bytes);
      assert got.toClient + (c.pipe + bytes) == (c.toClient + c.pipe) + bytes;
      SpliceDelivered(request, upstream, got, os);
  }

  lemma RingDelivered(request: seq<char>, upstream: seq<char>, c: Conn, os: Os)
    requires 0 <= c.retry && Delivering(ReadWrite, request, upstream, c)
    requires c.phase == ForwardResponse ==> Waits(ReadWrite, c)
    requires os.delOk
    requires os.deliver.Wrote? ==> 1 <= os.deliver.n <= c.ring.ReadRoom()
    ensures GoodOutcome(ReadWrite, request, upstream, StepRingWrite(c, os))
  {
    hide Ring.Contents, Ring.Exposed, Ring.Consumed, Ring.ReadRoom, Ring.Wrapped, StepRingRead;
    ExposedIsPrefix(c.ring);
    if c.ring.ReadRoom() > 0 && os.deliver.Wrote? {
      var n := os.deliver.n;
      ConsumedDrops(c.ring, n);
      ReadSplits(c.ring, n);
      ExposedIsPrefix(c.ring.Consumed(n));
      Assoc(c.toClient, c.ring.Exposed()[..n], c.ring.Consumed(n).Contents());
    }
  }

  lemma RingReceived(request: seq<char>, upstream: seq<char>, c: Conn, e: Event, os: Os)
    requires Inv(ReadWrite, request, upstream, c) && c.phase == ForwardResponse && e.fd == Fd1
    requires Possible(ReadWrite, upstream, c, e, os)
    ensures GoodOutcome(ReadWrite, request, upstream, StepRingRead(c, os))
  {
    hide Ring.Contents, Ring.Exposed, Ring.Consumed, Ring.ReadRoom, Ring.Filled, Ring.Advanced, StepRingWrite;
    WrappedKeeps(c.ring);
    RoomIsFree(c.ring);
    var offered := c.(ring := c.ring.Wrapped());
    if offered.ring.WriteRoom() > 0 {
      match os.read
      case EndOfStream => RingDelivered(request, upstream, UpstreamClosed(offered, os), os);
      case ReadBlocked =>
      case ReadFailed =>
      case Got(bytes) =>
        WrittenAppends(c.ring, bytes);
        Assoc(c.toClient, c.ring.Contents(), bytes);
        RingDelivered(request, upstream,
                      c.(retry := 0, ring := c.ring.Written(bytes), fromUpstream := c.fromUpstream + bytes), os);
    }
  }

  lemma Callable(k: Kind, upstream: seq<char>, c: Conn, e: Event, os: Os)
    requires c.ring.Ok() && Possible(k, upstream, c, e, os)
    ensures c.ring.Wrapped().Ok()
    ensures k.ReadWrite? && os.read.Got? ==>
              |os.read.bytes| <= c.ring.Wrapped().WriteRoom() && c.ring.Written(os.read.bytes).Ok()
  {
  }

  /** One call on a reachable state, for an event that was registered and any possible answers of the
      operating system: a surviving connection keeps the invariant, and a connection that is removed
      as finished has handed over the whole request and the whole response. */
  lemma CallKeepsInv(k: Kind, request: seq<char>, upstream: seq<char>, c: Conn, e: Event, os: Os)
    requires Inv(k, request, upstream, c) && Registered(c, e) && Possible(k, upstream, c, e, os)
    ensures GoodOutcome(k, request, upstream, Process(k, c, e, os))
  {
    if !Expected(c, e) {
      return;
    }
    match c.phase
    case WaitConnect =>
      if os.connect.Connected? {
        RequestForwarded(k, request, upstream, c.(phase := ForwardRequest), os);
      }
    case ForwardRequest => RequestForwarded(k, request, upstream, c, os);
    case _ =>
      match (k, e.fd)
      case (Splice, Fd1) => SpliceReceived(request, upstream, c, e, os);
      case (Splice, Fd0) => SpliceDelivered(request, upstream, c, os);
      case (ReadWrite, Fd1) => RingReceived(request, upstream, c, e, os);
      case (ReadWrite, Fd0) => RingDelivered(request, upstream, c, os);
  }

  // ---- The connection that nobody wakes ----

  /** No descriptor is polled, yet response bytes are still to be delivered. */
  predicate Stuck(c: Conn) {
    c.poll0 == NotPolled && c.poll1 == NotPolled
  }

  /** The pipe executor always leaves a registered event behind. */
  lemma SpliceNeverStuck(request: seq<char>, upstream: seq<char>, c: Conn)
    requires Inv(Splice, request, upstream, c)
    ensures !Stuck(c)
    ensures c.pipe != [] ==> c.poll0 == ForWrite
    ensures c.phase == ForwardResponse && c.pipe == [] ==> c.poll1 == ForRead
  {
  }

  /** End of stream arrives while unsent bytes are in the ring, the client's descriptor is not polled,
      and the socket takes some but not all of those bytes. */
  ghost predicate LosesItsEvents(c: Conn, e: Event, os: Os)
    requires c.ring.Ok()
  {
    && c.phase == ForwardResponse && e.fd == Fd1 && os.read.EndOfStream?
    && c.poll0 == NotPolled
    && c.ring.Wrapped().Ok() && c.ring.Wrapped().WriteRoom() > 0
    && os.deliver.Wrote? && os.deliver.n < |c.ring.Contents()|
  }

  /** The read/write executor leaves a connection with nothing polled exactly in that one case. */
  lemma StuckExactly(request: seq<char>, upstream: seq<char>, c: Conn, e: Event, os: Os)
    requires Inv(ReadWrite, request, upstream, c) && Registered(c, e) && Possible(ReadWrite, upstream, c, e, os)
    requires Process(ReadWrite, c, e, os).result == Proceed
    ensures Stuck(Process(ReadWrite, c, e, os).conn) <==> LosesItsEvents(c, e, os)
  {
    hide Ring.Contents, Ring.Exposed, Ring.Consumed, Ring.ReadRoom, StepRingWrite, StepSpliceWrite, StepSpliceRead,
         Ring.Wrapped;
    WrappedKeeps(c.ring);
    RoomIsFree(c.ring);
    if c.phase == ForwardResponse && e.fd == Fd1 && os.read.EndOfStream? {
      if c.ring.Wrapped().WriteRoom() > 0 {
        StuckAfterClose(request, upstream, UpstreamClosed(c.(ring := c.ring.Wrapped()), os), os);
      }
    } else if c.phase == ForwardResponse {
      ResponseStaysPolled(request, upstream, c, e, os);
    } else if c.phase == ForwardResponseOnlyWrite {
      ExposedIsPrefix(c.ring);
      RestStaysPolled(c, os);
    }
  }

  lemma RestStaysPolled(c: Conn, os: Os)
    requires c.ring.Ok() && c.phase == ForwardResponseOnlyWrite && c.poll0 == ForWrite
    ensures StepRingWrite(c, os).result == Proceed && c.ring.ReadRoom() > 0 ==> !Stuck(StepRingWrite(c, os).conn)
  {
    hide Ring.Contents, Ring.Exposed, Ring.Consumed, Ring.ReadRoom;
  }

  lemma StuckAfterClose(request: seq<char>, upstream: seq<char>, c: Conn, os: Os)
    requires Delivering(ReadWrite, request, upstream, c) && c.phase == ForwardResponseOnlyWrite && os.delOk
    requires os.deliver.Wrote? ==> 1 <= os.deliver.n <= c.ring.ReadRoom()
    requires StepRingWrite(c, os).result == Proceed
    ensures Stuck(StepRingWrite(c, os).conn) <==>
              c.poll0 == NotPolled && os.deliver.Wrote? && os.deliver.n < |c.ring.Contents()|
  {
    ExposedIsPrefix(c.ring);
    if os.deliver.Wrote? {
      ConsumedDrops(c.ring, os.deliver.n);
      ExposedIsPrefix(c.ring.Consumed(os.deliver.n));
    }
  }

  lemma ResponseStaysPolled(request: seq<char>, upstream: seq<char>, c: Conn, e: Event, os: Os)
    requires Inv(ReadWrite, request, upstream, c) && Registered(c, e) && Possible(ReadWrite, upstream, c, e, os)
    requires c.phase == ForwardResponse && !(e.fd == Fd1 && os.read.EndOfStream?)
    requires Process(ReadWrite, c, e, os).result == Proceed
    ensures !Stuck(Process(ReadWrite, c, e, os).conn)
  {
    hide Ring.Contents, Ring.Exposed, Ring.Consumed, Ring.Filled;
    ExposedIsPrefix(c.ring);
  }

  // ---- Termination ----

  function PhaseRank(p: Phase): nat {
    match p
    case WaitConnect => 3
    case ForwardRequest => 2
    case ForwardResponse => 1
    case ForwardResponseOnlyWrite => 0
  }

  /** Bytes still to be moved, each counted once per socket it has yet to cross, and phases to come. */
  function Work(upstream: seq<char>, c: Conn): int
    requires c.ring.Ok()
  {
    PhaseRank(c.phase) + |c.ring.Contents()| + 2 * (|upstream| - |c.fromUpstream|) + |c.pipe|
  }

  /** Calls that a connection can still survive. */
  function CallsLeft(upstream: seq<char>, c: Conn): int
    requires c.ring.Ok()
  {
    Work(upstream, c) * (MAX_RETRY_COUNTER + 2) + (MAX_RETRY_COUNTER + 1 - c.retry)
  }

  lemma InvWork(k: Kind, request: seq<char>, upstream: seq<char>, c: Conn)
    requires Inv(k, request, upstream, c)
    ensures Work(upstream, c) >= 0
    ensures c.retry <= MAX_RETRY_COUNTER ==> CallsLeft(upstream, c) > 0
  {
  }

  /** Every surviving call moves a byte or a phase forward, or counts one more retry. */
  ghost predicate Progress(upstream: seq<char>, c: Conn, c': Conn)
    requires c.ring.Ok() && c'.ring.Ok()
  {
    Work(upstream, c') < Work(upstream, c)
    || (Work(upstream, c') == Work(upstream, c) && c'.retry == c.retry + 1)
  }

  lemma RequestProgress(k: Kind, upstream: seq<char>, c: Conn, os: Os)
    requires c.ring.Ok() && c.phase == ForwardRequest
    requires os.write.Wrote? ==> 1 <= os.write.n <= c.ring.ReadRoom()
    requires StepForwardRequest(k, c, os).result == Proceed
    ensures StepForwardRequest(k, c, os).conn.ring.Ok()
    ensures Progress(upstream, c, StepForwardRequest(k, c, os).conn)
  {
    if os.write.Wrote? {
      ConsumedDrops(c.ring, os.write.n);
      assert c.ring.Consumed(os.write.n).Cleared().Contents() == [];
    }
  }

  lemma SpliceWriteProgress(upstream: seq<char>, c: Conn, os: Os)
    requires c.ring.Ok() && c.bytesInPipe == |c.pipe|
    requires os.deliver.Wrote? ==> 1 <= os.deliver.n <= |c.pipe|
    requires StepSpliceWrite(c, os).result == Proceed
    ensures StepSpliceWrite(c, os).conn.ring.Ok()
    ensures Progress(upstream, c, StepSpliceWrite(c, os).conn)
  {
    hide Ring.Contents, Ring.Exposed;
  }

  lemma SpliceReadProgress(upstream: seq<char>, c: Conn, e: Event, os: Os)
    requires c.ring.Ok() && c.bytesInPipe == |c.pipe| && c.phase == ForwardResponse && e.fd == Fd1
    requires Possible(Splice, upstream, c, e, os)
    requires StepSpliceRead(c, os).result == Proceed
    ensures StepSpliceRead(c, os).conn.ring.Ok()
    ensures Progress(upstream, c, StepSpliceRead(c, os).conn)
  {
    hide StepSpliceWrite, Ring.Contents;
    match os.read
    case EndOfStream => SpliceWriteProgress(upstream, UpstreamClosed(c, os), os);
    case Got(bytes) =>
      SpliceWriteProgress(upstream,
                          c.(retry := 0, bytesInPipe := c.bytesInPipe + |bytes|, pipe := c.pipe + bytes,
                             fromUpstream := c.fromUpstream + bytes), os);
    case _ =>
  }

  lemma RingWriteProgress(upstream: seq<char>, c: Conn, os: Os)
    requires c.ring.Ok()
    requires os.deliver.Wrote? ==> 1 <= os.deliver.n <= c.ring.ReadRoom()
    requires StepRingWrite(c, os).result == Proceed
    ensures StepRingWrite(c, os).conn.ring.Ok()
    ensures Progress(upstream, c, StepRingWrite(c, os).conn)
  {
    hide Ring.Contents, Ring.Exposed, Ring.Consumed;
    if os.deliver.Wrote? && c.ring.ReadRoom() > 0 {
      ConsumedDrops(c.ring, os.deliver.n);
    }
  }

  lemma RingReadProgress(upstream: seq<char>, c: Conn, e: Event, os: Os)
    requires c.ring.Ok() && c.phase == ForwardResponse && e.fd == Fd1
    requires Possible(ReadWrite, upstream, c, e, os)
    requires StepRingRead(c, os).result == Proceed
    ensures StepRingRead(c, os).conn.ring.Ok()
    ensures Progress(upstream, c, StepRingRead(c, os).conn)
  {
    hide Ring.Contents, StepRingWrite, Ring.Exposed, Ring.Filled, Ring.Advanced;
    WrappedKeeps(c.ring);
    var offered := c.(ring := c.ring.Wrapped());
    if offered.ring.WriteRoom() > 0 {
      match os.read
      case EndOfStream => RingWriteProgress(upstream, UpstreamClosed(offered, os), os);
      case Got(bytes) =>
        WrittenAppends(c.ring, bytes);
        RingWriteProgress(upstream,
                          c.(retry := 0, ring := c.ring.Written(bytes), fromUpstream := c.fromUpstream + bytes), os);
      case _ =>
    }
  }

  lemma CallMakesProgress(k: Kind, request: seq<char>, upstream: seq<char>, c: Conn, e: Event, os: Os)
    requires Inv(k, request, upstream, c) && Registered(c, e) && Possible(k, upstream, c, e, os)
    requires Process(k, c, e, os).result == Proceed
    ensures Process(k, c, e, os).conn.ring.Ok()
    ensures Progress(upstream, c, Process(k, c, e, os).conn)
  {
    match c.phase
    case WaitConnect =>
      if os.connect.Connected? {
        RequestProgress(k, upstream, c.(phase := ForwardRequest), os);
      }
    case ForwardRequest => RequestProgress(k, upstream, c, os);
    case _ =>
      match (k, e.fd)
      case (Splice, Fd1) => SpliceReadProgress(upstream, c, e, os);
      case (Splice, Fd0) => SpliceWriteProgress(upstream, c, os);
      case (ReadWrite, Fd1) => RingReadProgress(upstream, c, e, os);
      case (ReadWrite, Fd0) => RingWriteProgress(upstream, c, os);
  }

  // ---- Runs ----

  datatype Call = Call(event: Event, os: Os)

  datatype Life = Alive(conn: Conn) | Removed(result: ProcessResult, conn: Conn)

  /** The poll loop's treatment of one call: a surviving connection with too many retries is destroyed. */
  function AfterCall(o: Outcome): Life {
    if o.result != Proceed then Removed(o.result, o.conn)
    else if o.conn.retry > MAX_RETRY_COUNTER then Removed(RemoveError, o.conn)
    else Alive(o.conn)
  }

  /** A run is possible if every call is for a registered event and gets possible answers. */
  ghost predicate PossibleRun(k: Kind, upstream: seq<char>, c: Conn, calls: seq<Call>)
    decreases |calls|
  {
    calls == [] || (
      var e, os := calls[0].event, calls[0].os;
      && c.ring.Ok() && Registered(c, e) && Possible(k, upstream, c, e, os)
      && var l := AfterCall(Process(k, c, e, os));
         if l.Alive? then PossibleRun(k, upstream, l.conn, calls[1..]) else |calls| == 1)
  }

  ghost function Live(k: Kind, upstream: seq<char>, c: Conn, calls: seq<Call>): Life
    requires PossibleRun(k, upstream, c, calls)
    decreases |calls|
  {
    if calls == [] then Alive(c)
    else
      var l := AfterCall(Process(k, c, calls[0].event, calls[0].os));
      if l.Alive? then Live(k, upstream, l.conn, calls[1..]) else l
  }

  /** Every run of either executor: while the connection lives, the invariant holds; and when it is
      removed as finished, the upstream got exactly the request and the client exactly the upstream's
      stream. */
  lemma {:induction false} RunsConserveBytes(k: Kind, request: seq<char>, upstream: seq<char>, c: Conn,
                                             calls: seq<Call>)
    requires Inv(k, request, upstream, c) && PossibleRun(k, upstream, c, calls)
    ensures match Live(k, upstream, c, calls)
            case Alive(c') => Inv(k, request, upstream, c')
            case Removed(RemoveOk, c') => c'.toUpstream == request && c'.toClient == upstream
            case Removed(_, _) => true
    decreases |calls|
  {
    hide Process, Inv, Possible, Registered;
    if calls != [] {
      InvOk(k, request, upstream, c);
      Callable(k, upstream, c, calls[0].event, calls[0].os);
      CallKeepsInv(k, request, upstream, c, calls[0].event, calls[0].os);
      var l := AfterCall(Process(k, c, calls[0].event, calls[0].os));
      if l.Alive? {
        RunsConserveBytes(k, request, upstream, l.conn, calls[1..]);
      }
    }
  }

  lemma InvOk(k: Kind, request: seq<char>, upstream: seq<char>, c: Conn)
    requires Inv(k, request, upstream, c)
    ensures c.ring.Ok()
  {
  }

  /** Every run is short: a connection survives fewer calls than `CallsLeft` says, so it is removed
      after finitely many, whatever the operating system answers. */
  lemma {:induction false} RunsAreBounded(k: Kind, request: seq<char>, upstream: seq<char>, c: Conn, calls: seq<Call>)
    requires Inv(k, request, upstream, c) && PossibleRun(k, upstream, c, calls)
    requires c.retry <= MAX_RETRY_COUNTER
    ensures |calls| <= CallsLeft(upstream, c)
    decreases |calls|
  {
    hide Process, Inv, Possible, Registered, Work;
    InvOk(k, request, upstream, c);
    InvWork(k, request, upstream, c);
    if calls != [] {
      Callable(k, upstream, c, calls[0].event, calls[0].os);
      CallKeepsInv(k, request, upstream, c, calls[0].event, calls[0].os);
      var o := Process(k, c, calls[0].event, calls[0].os);
      if AfterCall(o).Alive? {
        CallMakesProgress(k, request, upstream, c, calls[0].event, calls[0].os);
        InvRetry(k, request, upstream, o.conn);
        RunsAreBounded(k, request, upstream, o.conn, calls[1..]);
      }
    }
  }

  lemma InvRetry(k: Kind, request: seq<char>, upstream: seq<char>, c: Conn)
    requires Inv(k, request, upstream, c)
    ensures c.retry >= 0
  {
  }

  // ---- The exception is reachable ----

  function Answers(write: WriteAnswer, read: ReadAnswer, deliver: WriteAnswer): Os {
    Os(Connected, write, read, deliver, true, true, true, true)
  }

  function Readable(): Event {
    Event(Fd1, true, false, false)
  }

  function Writable(): Event {
    Event(Fd1, false, true, false)
  }

  /** A request as it is handed over: at the front of a buffer of the real size. */
  predicate HandedOver(ring: Ring, request: seq<char>) {
    && ring.Ok() && ring.readHead == 0 && |ring.store| == REQUEST_BUFFER_SIZE
    && ring.Contents() == request != []
  }

  /** The request is forwarded whole; the response may start. */
  lemma RequestGoesOut(c: Conn, request: seq<char>, upstream: seq<char>)
    requires c.phase == ForwardRequest && c.poll1 == ForWrite && c.toUpstream == [] && HandedOver(c.ring, request)
    ensures var os := Answers(Wrote(|request|), ReadBlocked, WriteBlocked);
            var c1 := c.(ring := c.ring.Cleared(), phase := ForwardResponse, poll1 := ForRead,
                         toUpstream := request, retry := 0);
            && Possible(ReadWrite, upstream, c, Writable(), os)
            && Process(ReadWrite, c, Writable(), os) == Outcome(Proceed, c1)
  {
    ExposedIsPrefix(c.ring);
    assert c.ring.Exposed() == request && request[..|request|] == request && [] + request == request;
  }

  /** The whole response arrives and the client takes its first byte. */
  lemma FirstByteDelivered(c: Conn, upstream: seq<char>)
    requires c.ring.Ok() && c.ring.readHead == 0 && c.ring.writeHead == 0 && |c.ring.store| == REQUEST_BUFFER_SIZE
    requires c.phase == ForwardResponse && c.poll1 == ForRead && c.fromUpstream == []
    requires 1 < |upstream| < REQUEST_BUFFER_SIZE
    ensures var os := Answers(WriteBlocked, Got(upstream), Wrote(1));
            c.ring.Wrapped().Ok() && |upstream| <= c.ring.Wrapped().WriteRoom()
            && var c2 := c.(ring := c.ring.Written(upstream).Consumed(1), fromUpstream := upstream,
                            toClient := c.toClient + upstream[..1], retry := 0);
            && Possible(ReadWrite, upstream, c, Readable(), os)
            && Process(ReadWrite, c, Readable(), os) == Outcome(Proceed, c2)
            && c2.ring.Ok() && c2.ring.Contents() == upstream[1..] && c2.ring.readHead == 1
            && c2.ring.writeHead == |upstream|
  {
    WrittenAppends(c.ring, upstream);
    var w := c.ring.Written(upstream);
    ExposedIsPrefix(w);
    ConsumedDrops(w, 1);
    assert [] + upstream == upstream;
  }

  /** Three possible calls, after which a read/write proxy lives on and nothing is polled. */
  ghost predicate EndsStuck(c: Conn, calls: seq<Call>) {
    && |calls| == 3 && PossibleRun(ReadWrite, "abc", c, calls)
    && Live(ReadWrite, "abc", c, calls).Alive? && Stuck(Live(ReadWrite, "abc", c, calls).conn)
  }

  /** Every request that is handed over can end so: three calls leave a read/write proxy with a response of three bytes
      of which two are delivered, and no descriptor polled. The upstream takes the request, answers, the client takes
      one byte, the upstream closes, and the client takes one more. */
  lemma StuckIsReachable(ring: Ring, request: seq<char>)
    requires HandedOver(ring, request)
    ensures var up := Up(ring, ForRead, 0, true, Answers(WriteBlocked, ReadBlocked, WriteBlocked));
            && up.Started?
            && exists calls: seq<Call> ::
                 EndsStuck(up.conn, calls) && Live(ReadWrite, "abc", up.conn, calls).conn.toClient == "ab"
  {
    hide Process, Possible, PossibleRun, Live, Inv, Stuck, EndsStuck, Ring.Contents, Ring.Consumed, Ring.Wrapped,
         Ring.Written;
    var os := Answers(WriteBlocked, ReadBlocked, WriteBlocked);
    var c0 := Up(ring, ForRead, 0, true, os).conn;
    UpInv(ReadWrite, ring, 0, ForRead, true, os, "abc");
    RequestGoesOut(c0, request, "abc");
    var call0 := Call(Writable(), Answers(Wrote(|request|), ReadBlocked, WriteBlocked));
    var c1 := Process(ReadWrite, c0, call0.event, call0.os).conn;
    CallKeepsInv(ReadWrite, request, "abc", c0, call0.event, call0.os);
    FirstByteDelivered(c1, "abc");
    var call1 := Call(Readable(), Answers(WriteBlocked, Got("abc"), Wrote(1)));
    var c2 := Process(ReadWrite, c1, call1.event, call1.os).conn;
    CallKeepsInv(ReadWrite, request, "abc", c1, call1.event, call1.os);
    StuckNext(c2, request);
    JoinRun(c0, c1, c2, call0, call1, Call(Readable(), Answers(WriteBlocked, EndOfStream, Wrote(1))));
  }

  lemma StuckNext(c: Conn, request: seq<char>)
    requires Inv(ReadWrite, request, "abc", c) && c.phase == ForwardResponse && c.fromUpstream == "abc"
    requires c.poll0 == NotPolled && c.poll1 == ForRead && c.retry == 0
    requires c.ring.Contents() == "bc" && c.ring.readHead == 1 && c.ring.writeHead == 3 && c.toClient == "a"
    ensures var e, os := Readable(), Answers(WriteBlocked, EndOfStream, Wrote(1));
            && Registered(c, e) && Possible(ReadWrite, "abc", c, e, os)
            && AfterCall(Process(ReadWrite, c, e, os)).Alive?
            && Stuck(Process(ReadWrite, c, e, os).conn)
            && Process(ReadWrite, c, e, os).conn.toClient == "ab"
  {
    assert c.ring.Wrapped() == c.ring;
    ConsumedDrops(c.ring, 1);
    StuckExactly(request, "abc", c, Readable(), Answers(WriteBlocked, EndOfStream, Wrote(1)));
  }

  lemma JoinRun(c0: Conn, c1: Conn, c2: Conn, call0: Call, call1: Call, call2: Call)
    requires c0.ring.Ok() && Registered(c0, call0.event) && Possible(ReadWrite, "abc", c0, call0.event, call0.os)
    requires AfterCall(Process(ReadWrite, c0, call0.event, call0.os)) == Alive(c1)
    requires c1.ring.Ok() && Registered(c1, call1.event) && Possible(ReadWrite, "abc", c1, call1.event, call1.os)
    requires AfterCall(Process(ReadWrite, c1, call1.event, call1.os)) == Alive(c2)
    requires c2.ring.Ok() && Registered(c2, call2.event) && Possible(ReadWrite, "abc", c2, call2.event, call2.os)
    requires AfterCall(Process(ReadWrite, c2, call2.event, call2.os)).Alive?
    requires Stuck(Process(ReadWrite, c2, call2.event, call2.os).conn)
    ensures exists calls: seq<Call> ::
              && EndsStuck(c0, calls)
              && Live(ReadWrite, "abc", c0, calls).conn == Process(ReadWrite, c2, call2.event, call2.os).conn
  {
    hide Process, Possible, Registered, Inv;
    Callable(ReadWrite, "abc", c2, call2.event, call2.os);
    var c3 := AfterCall(Process(ReadWrite, c2, call2.event, call2.os)).conn;
    var calls := [call0, call1, call2];
    assert calls[2..] == [call2] && calls[1..] == [call1, call2];
    assert calls[1..][1..] == calls[2..] && calls[2..][1..] == [];
    assert PossibleRun(ReadWrite, "abc", c3, []);
    assert PossibleRun(ReadWrite, "abc", c2, calls[2..]) && Live(ReadWrite, "abc", c2, calls[2..]) == Alive(c3);
    assert PossibleRun(ReadWrite, "abc", c1, calls[1..]) && Live(ReadWrite, "abc", c1, calls[1..]) == Alive(c3);
    assert PossibleRun(ReadWrite, "abc", c0, calls) && Live(ReadWrite, "abc", c0, calls) == Alive(c3);
    assert EndsStuck(c0, calls);
  }
}
