/** How a call of a proxy executor ends, exactly, and that every exchange can be finished: which answers drop a
    connection, when it is done, what a retry is, and a run that passes on a request and a response of any length. */
module ProxyOutcomes {
  import opened ExecutorLimits
  import opened ProcessResults
  import opened RingBuffer
  import opened ProxyModel
  import opened ProxyRuns

  // ---- Which answers drop a connection ----

  /** The request's socket fails, or the step after its last byte does. */
  predicate ForwardFails(k: Kind, c: Conn, os: Os)
    requires c.ring.Ok()
  {
    match os.write
    case Wrote(n) => n == |c.ring.Contents()| && (!os.modOk || (k.Splice? && !os.pipeOpens))
    case WriteBlocked => false
    case WroteNothing => true
    case WriteFailed => true
  }

  /** The client's socket fails while bytes are held for it, or a descriptor has to be registered and the kernel
      refuses: the client's as long as bytes are held behind a pipe or it would block, the upstream's when there is
      room again. */
  predicate DeliveryFails(k: Kind, c: Conn, held: seq<char>, os: Os) {
    held != [] &&
    match os.deliver
    case WriteFailed => true
    case WroteNothing => k.ReadWrite?
    case WriteBlocked => c.poll0 == NotPolled && !os.addOk
    case Wrote(n) =>
      !os.addOk &&
      if k.Splice? && n < |held| then c.poll0 == NotPolled else c.phase == ForwardResponse && c.poll1 == NotPolled
  }

  ghost predicate ReadFails(k: Kind, c: Conn, os: Os)
    requires c.ring.Ok() && c.ring.Wrapped().Ok()
  {
    if k.ReadWrite? && c.ring.Wrapped().WriteRoom() == 0 then c.poll0 == NotPolled && !os.addOk
    else match os.read
      case ReadFailed => true
      case ReadBlocked => false
      case EndOfStream => DeliveryFails(k, UpstreamClosed(c, os), InTransit(k, c), os)
      case Got(bytes) => DeliveryFails(k, c, InTransit(k, c) + bytes, os)
  }

  /** One of the answers that the call uses is a failure. */
  ghost predicate Fails(k: Kind, c: Conn, e: Event, os: Os)
    requires c.ring.Ok() && c.ring.Wrapped().Ok()
  {
    match c.phase
    case WaitConnect => os.connect.ConnectFailed? || (os.connect.Connected? && ForwardFails(k, c, os))
    case ForwardRequest => ForwardFails(k, c, os)
    case _ => if e.fd == Fd1 then ReadFails(k, c, os) else DeliveryFails(k, c, InTransit(k, c), os)
  }

  /** Bytes that have crossed a socket. */
  function Crossed(c: Conn): nat {
    |c.toUpstream| + |c.fromUpstream| + |c.toClient|
  }

  /** How a call ends: an error for exactly the failures, success for exactly the last byte of an ended response, and a
      retry is counted exactly if nothing crossed a socket. */
  ghost predicate EndsAs(c: Conn, upstream: seq<char>, fails: bool, o: Outcome) {
    && (o.result == RemoveError <==> fails)
    && (o.result == RemoveOk <==> !fails && o.conn.ended && o.conn.toClient == upstream)
    && (o.result == Proceed ==>
          if Crossed(o.conn) == Crossed(c) then o.conn.retry == c.retry + 1
          else Crossed(o.conn) > Crossed(c) && o.conn.retry <= 1)
  }

  lemma ForwardEnds(k: Kind, request: seq<char>, upstream: seq<char>, c: Conn, os: Os)
    requires RequestPhase(request, c) && c.phase == ForwardRequest && 0 <= c.retry
    requires os.write.Wrote? ==> 1 <= os.write.n <= c.ring.ReadRoom()
    ensures EndsAs(c, upstream, ForwardFails(k, c, os), StepForwardRequest(k, c, os))
  {
    hide Ring.Contents, Ring.Exposed, Ring.Consumed, Ring.ReadRoom;
    ExposedIsPrefix(c.ring);
  }

  lemma SpliceWriteEnds(request: seq<char>, upstream: seq<char>, c: Conn, os: Os)
    requires 0 <= c.retry && Delivering(Splice, request, upstream, c) && os.delOk && !os.deliver.WroteNothing?
    requires c.phase == ForwardResponse && c.pipe == [] ==> c.poll1 == ForRead
    requires os.deliver.Wrote? ==> 1 <= os.deliver.n <= |c.pipe|
    ensures EndsAs(c, upstream, DeliveryFails(Splice, c, c.pipe, os), StepSpliceWrite(c, os))
  {
    hide Ring.Contents;
    if c.pipe != [] && os.deliver.Wrote? {
      assert |c.toClient| + |c.pipe| == |c.fromUpstream| by {
        assert |c.toClient + c.pipe| == |c.fromUpstream|;
      }
    }
    assert c.pipe == [] ==> c.toClient + c.pipe == c.toClient;
  }

  lemma RingWriteEnds(request: seq<char>, upstream: seq<char>, c: Conn, os: Os)
    requires 0 <= c.retry && Delivering(ReadWrite, request, upstream, c) && os.delOk
    requires os.deliver.Wrote? ==> 1 <= os.deliver.n <= c.ring.ReadRoom()
    ensures EndsAs(c, upstream, DeliveryFails(ReadWrite, c, c.ring.Contents(), os), StepRingWrite(c, os))
  {
    hide Ring.Contents, Ring.Exposed, Ring.Consumed, Ring.ReadRoom;
    ExposedIsPrefix(c.ring);
    assert |c.toClient + c.ring.Contents()| == |c.fromUpstream|;
    if c.ring.ReadRoom() > 0 && os.deliver.Wrote? {
      ConsumedDrops(c.ring, os.deliver.n);
      ExposedIsPrefix(c.ring.Consumed(os.deliver.n));
    }
  }

  /** A read that moved bytes or ended the stream, and then the delivery: what the delivery says holds for both. */
  lemma EndsWith(c: Conn, c1: Conn, upstream: seq<char>, fails: bool, o: Outcome)
    requires EndsAs(c1, upstream, fails, o) && 0 <= c.retry
    requires if Crossed(c1) == Crossed(c) then c1.retry == c.retry else Crossed(c1) > Crossed(c) && c1.retry == 0
    ensures EndsAs(c, upstream, fails, o)
  {
  }

  lemma SpliceReadEnds(request: seq<char>, upstream: seq<char>, c: Conn, e: Event, os: Os)
    requires Inv(Splice, request, upstream, c) && c.phase == ForwardResponse && e.fd == Fd1
    requires Possible(Splice, upstream, c, e, os)
    ensures EndsAs(c, upstream, ReadFails(Splice, c, os), StepSpliceRead(c, os))
  {
    hide EndsAs, StepSpliceWrite, DeliveryFails, Ring.Contents;
    match os.read
    case EndOfStream =>
      var c1 := UpstreamClosed(c, os);
      SpliceWriteEnds(request, upstream, c1, os);
      EndsWith(c, c1, upstream, DeliveryFails(Splice, c1, c1.pipe, os), StepSpliceWrite(c1, os));
    case Got(bytes) =>
      var c1 := c.(retry := 0, bytesInPipe := c.bytesInPipe + |bytes|, pipe := c.pipe + bytes,
                   fromUpstream := c.fromUpstream + bytes);
      assert c1.toClient + c1.pipe == (c.toClient + c.pipe) + bytes;
      SpliceWriteEnds(request, upstream, c1, os);
      SameDelivery(Splice, c, c1, c1.pipe, os);
      EndsWith(c, c1, upstream, DeliveryFails(Splice, c1, c1.pipe, os), StepSpliceWrite(c1, os));
    case _ => SpliceBlocked(request, upstream, c, os);
  }

  lemma SpliceBlocked(request: seq<char>, upstream: seq<char>, c: Conn, os: Os)
    requires Inv(Splice, request, upstream, c) && c.phase == ForwardResponse && os.delOk
    requires os.read.ReadBlocked? || os.read.ReadFailed?
    ensures EndsAs(c, upstream, os.read.ReadFailed?, StepSpliceRead(c, os))
  {
    hide Ring.Contents;
  }

  lemma SameDelivery(k: Kind, c: Conn, c1: Conn, held: seq<char>, os: Os)
    requires c1.poll0 == c.poll0 && c1.poll1 == c.poll1 && c1.phase == c.phase
    ensures DeliveryFails(k, c1, held, os) == DeliveryFails(k, c, held, os)
  {
  }

  lemma RingReadEnds(request: seq<char>, upstream: seq<char>, c: Conn, e: Event, os: Os)
    requires Inv(ReadWrite, request, upstream, c) && c.phase == ForwardResponse && e.fd == Fd1
    requires Possible(ReadWrite, upstream, c, e, os)
    ensures EndsAs(c, upstream, ReadFails(ReadWrite, c, os), StepRingRead(c, os))
  {
    hide EndsAs, StepRingWrite, DeliveryFails, Ring.Contents, Ring.Exposed, Ring.Consumed, Ring.ReadRoom, Ring.Filled,
         Ring.Advanced, Ring.WriteRoom;
    WrappedKeeps(c.ring);
    var offered := c.(ring := c.ring.Wrapped());
    if offered.ring.WriteRoom() == 0 {
      RingWaits(request, upstream, c, os);
    } else {
      match os.read
      case EndOfStream =>
        var c1 := UpstreamClosed(offered, os);
        RingWriteEnds(request, upstream, c1, os);
        SameDelivery(ReadWrite, UpstreamClosed(c, os), c1, c1.ring.Contents(), os);
        EndsWith(c, c1, upstream, DeliveryFails(ReadWrite, c1, c1.ring.Contents(), os), StepRingWrite(c1, os));
      case Got(bytes) =>
        WrittenAppends(c.ring, bytes);
        var c1 := c.(retry := 0, ring := c.ring.Written(bytes), fromUpstream := c.fromUpstream + bytes);
        assert c1.toClient + c1.ring.Contents() == (c.toClient + c.ring.Contents()) + bytes;
        RingWriteEnds(request, upstream, c1, os);
        SameDelivery(ReadWrite, c, c1, c1.ring.Contents(), os);
        EndsWith(c, c1, upstream, DeliveryFails(ReadWrite, c1, c1.ring.Contents(), os), StepRingWrite(c1, os));
      case _ => RingWaits(request, upstream, c, os);
    }
  }

  lemma RingWaits(request: seq<char>, upstream: seq<char>, c: Conn, os: Os)
    requires Inv(ReadWrite, request, upstream, c) && c.phase == ForwardResponse && os.delOk && c.ring.Wrapped().Ok()
    requires c.ring.Wrapped().WriteRoom() == 0 || os.read.ReadBlocked? || os.read.ReadFailed?
    requires os.read.Got? ==>
               |os.read.bytes| <= c.ring.Wrapped().WriteRoom() && c.ring.Written(os.read.bytes).Ok()
    ensures EndsAs(c, upstream, ReadFails(ReadWrite, c, os), StepRingRead(c, os))
  {
    hide Ring.Contents, Ring.Exposed, Ring.Wrapped, Ring.WriteRoom, Ring.Written;
  }

  /** For either executor, in every reachable state, for every event that is expected and any possible answers: the
      connection is dropped if and only if one of the answers used is a failure, so never because a socket would block
      or bytes were delivered; it is done if and only if nothing failed, the response has ended and all of it is
      delivered; and a retry is counted exactly if no byte crossed a socket. */
  lemma CallEndsExactly(k: Kind, request: seq<char>, upstream: seq<char>, c: Conn, e: Event, os: Os)
    requires Inv(k, request, upstream, c) && Registered(c, e) && Possible(k, upstream, c, e, os) && Expected(c, e)
    ensures EndsAs(c, upstream, Fails(k, c, e, os), Process(k, c, e, os))
  {
    hide EndsAs, ForwardFails, ReadFails, DeliveryFails, StepSpliceWrite, StepSpliceRead, StepRingWrite, StepRingRead,
         StepForwardRequest, Ring.Contents, Ring.Exposed, Ring.ReadRoom;
    match c.phase
    case WaitConnect =>
      if os.connect.Connected? {
        var c1 := c.(phase := ForwardRequest);
        ForwardEnds(k, request, upstream, c1, os);
        EndsWith(c, c1, upstream, ForwardFails(k, c1, os), StepForwardRequest(k, c1, os));
        SameForward(k, c, c1, os);
      } else {
        NotConnectedEnds(k, request, upstream, c, os);
      }
    case ForwardRequest => ForwardEnds(k, request, upstream, c, os);
    case _ =>
      match (k, e.fd)
      case (Splice, Fd1) => SpliceReadEnds(request, upstream, c, e, os);
      case (Splice, Fd0) => SpliceWriteEnds(request, upstream, c, os);
      case (ReadWrite, Fd1) => RingReadEnds(request, upstream, c, e, os);
      case (ReadWrite, Fd0) => RingWriteEnds(request, upstream, c, os);
  }

  lemma SameForward(k: Kind, c: Conn, c1: Conn, os: Os)
    requires c.ring.Ok() && c1.ring == c.ring
    ensures ForwardFails(k, c1, os) == ForwardFails(k, c, os)
  {
  }

  lemma NotConnectedEnds(k: Kind, request: seq<char>, upstream: seq<char>, c: Conn, os: Os)
    requires RequestPhase(request, c) && !os.connect.Connected?
    ensures EndsAs(c, upstream, os.connect.ConnectFailed?, StepWaitConnect(k, c, os))
  {
  }

  // ---- What is polled behind a call ----

  /** Through a pipe: the client's descriptor is polled exactly while bytes wait for it; the upstream's whenever none
      do, not while some do and the upstream had nothing more, and never after its end. */
  ghost predicate SplicePolls(c: Conn, e: Event, os: Os, c': Conn) {
    && (c'.poll0 == ForWrite <==> c'.pipe != []) && c'.poll0 != ForRead
    && c'.poll1 == if c'.ended then NotPolled
                   else if c'.pipe == [] then ForRead
                   else if e.fd == Fd1 && os.read.ReadBlocked? then NotPolled
                   else c.poll1
  }

  lemma SpliceDelivers(request: seq<char>, upstream: seq<char>, c: Conn, os: Os)
    requires 0 <= c.retry && Delivering(Splice, request, upstream, c) && os.delOk && !os.deliver.WroteNothing?
    requires c.phase == ForwardResponse && c.pipe == [] ==> c.poll1 == ForRead && c.poll0 == NotPolled
    requires os.deliver.Wrote? ==> 1 <= os.deliver.n <= |c.pipe|
    requires StepSpliceWrite(c, os).result == Proceed
    ensures var c' := StepSpliceWrite(c, os).conn;
            && c'.ended == c.ended && (c'.poll0 == ForWrite <==> c'.pipe != []) && c'.poll0 != ForRead
            && c'.poll1 == (if c'.pipe == [] then ForRead else c.poll1) && (c'.ended ==> c'.pipe != [])
  {
    hide Ring.Contents;
  }

  lemma SplicePollsExactly(request: seq<char>, upstream: seq<char>, c: Conn, e: Event, os: Os)
    requires Inv(Splice, request, upstream, c) && Registered(c, e) && Possible(Splice, upstream, c, e, os)
    requires Expected(c, e) && (c.phase == ForwardResponse || c.phase == ForwardResponseOnlyWrite)
    requires Process(Splice, c, e, os).result == Proceed
    ensures SplicePolls(c, e, os, Process(Splice, c, e, os).conn)
  {
    hide Ring.Contents, StepSpliceWrite;
    if e.fd == Fd0 {
      SpliceDelivers(request, upstream, c, os);
    } else {
      match os.read
      case EndOfStream => SpliceDelivers(request, upstream, UpstreamClosed(c, os), os);
      case Got(bytes) =>
        assert c.toClient + (c.pipe + bytes) == (c.toClient + c.pipe) + bytes;
        SpliceDelivers(request, upstream,
                       c.(retry := 0, bytesInPipe := c.bytesInPipe + |bytes|, pipe := c.pipe + bytes,
                          fromUpstream := c.fromUpstream + bytes), os);
      case _ =>
    }
  }

  /** Through the ring: what is delivered wakes the upstream up again and a full ring puts it to sleep; the client's
      descriptor is polled when it would block or the ring is full, and no longer when nothing is left for it. */
  ghost predicate RingPolls(c: Conn, e: Event, os: Os, c': Conn)
    requires c.ring.Ok() && c.ring.Wrapped().Ok()
  {
    var full := e.fd == Fd1 && c.ring.Wrapped().WriteRoom() == 0;
    var asks := e.fd == Fd0 || (!full && (os.read.Got? || os.read.EndOfStream?));
    var held := c.ring.Contents() + if e.fd == Fd1 && os.read.Got? then os.read.bytes else [];
    && c'.poll1 == (if c'.ended || full then NotPolled
                    else if |c'.toClient| > |c.toClient| then ForRead else c.poll1)
    && c'.poll0 == (if full || (asks && held != [] && os.deliver.WriteBlocked?) then ForWrite
                    else if asks && held == [] then NotPolled else c.poll0)
  }

  lemma RingDelivers(c: Conn, os: Os)
    requires c.ring.Ok() && os.delOk && c.poll0 != ForRead && c.poll1 != ForWrite
    requires os.deliver.Wrote? ==> 1 <= os.deliver.n <= c.ring.ReadRoom()
    requires StepRingWrite(c, os).result == Proceed
    ensures var c' := StepRingWrite(c, os).conn;
            && c'.ended == c.ended
            && c'.poll1 == (if c.phase == ForwardResponse && |c'.toClient| > |c.toClient| then ForRead else c.poll1)
            && c'.poll0 == (if c.ring.Contents() != [] && os.deliver.WriteBlocked? then ForWrite
                            else if c.ring.Contents() == [] then NotPolled else c.poll0)
            && |c'.toClient| >= |c.toClient|
  {
    hide Ring.Contents, Ring.Exposed, Ring.Consumed;
    ExposedIsPrefix(c.ring);
  }

  lemma RingPollsExactly(request: seq<char>, upstream: seq<char>, c: Conn, e: Event, os: Os)
    requires Inv(ReadWrite, request, upstream, c) && Registered(c, e) && Possible(ReadWrite, upstream, c, e, os)
    requires Expected(c, e) && (c.phase == ForwardResponse || c.phase == ForwardResponseOnlyWrite)
    requires Process(ReadWrite, c, e, os).result == Proceed
    ensures RingPolls(c, e, os, Process(ReadWrite, c, e, os).conn)
  {
    hide Ring.Contents, Ring.Exposed, Ring.Consumed, Ring.Filled, Ring.Advanced, Ring.ReadRoom, StepRingWrite;
    WrappedKeeps(c.ring);
    assert c.ring.Contents() + [] == c.ring.Contents();
    if e.fd == Fd0 {
      RingDelivers(c, os);
    } else if c.ring.Wrapped().WriteRoom() > 0 {
      match os.read
      case EndOfStream => RingDelivers(UpstreamClosed(c.(ring := c.ring.Wrapped()), os), os);
      case Got(bytes) =>
        WrittenAppends(c.ring, bytes);
        RingDelivers(c.(retry := 0, ring := c.ring.Written(bytes), fromUpstream := c.fromUpstream + bytes), os);
      case _ =>
    }
  }

  // ---- Every exchange can be finished ----

  ghost predicate Finishes(k: Kind, request: seq<char>, upstream: seq<char>, c: Conn, calls: seq<Call>) {
    && PossibleRun(k, upstream, c, calls)
    && var l := Live(k, upstream, c, calls);
       l.Removed? && l.result == RemoveOk && l.conn.toUpstream == request && l.conn.toClient == upstream
  }

  lemma FinishesNow(k: Kind, request: seq<char>, upstream: seq<char>, c: Conn, call: Call)
    requires Inv(k, request, upstream, c) && Registered(c, call.event) && Possible(k, upstream, c, call.event, call.os)
    requires Process.requires(k, c, call.event, call.os) && Process(k, c, call.event, call.os).result == RemoveOk
    ensures Finishes(k, request, upstream, c, [call])
  {
    hide Process, Possible, Registered, Inv;
    InvOk(k, request, upstream, c);
    Callable(k, upstream, c, call.event, call.os);
    CallKeepsInv(k, request, upstream, c, call.event, call.os);
  }

  lemma FinishesNext(k: Kind, request: seq<char>, upstream: seq<char>, c: Conn, call: Call, rest: seq<Call>)
    requires c.ring.Ok() && Registered(c, call.event) && Possible(k, upstream, c, call.event, call.os)
    requires Process.requires(k, c, call.event, call.os)
    requires AfterCall(Process(k, c, call.event, call.os)).Alive?
    requires Finishes(k, request, upstream, AfterCall(Process(k, c, call.event, call.os)).conn, rest)
    ensures Finishes(k, request, upstream, c, [call] + rest)
  {
    hide Process, Possible, Registered;
    assert ([call] + rest)[1..] == rest;
  }

  /** Everything that has come from the upstream has gone to the client, and more is awaited. */
  ghost predicate Relaying(k: Kind, request: seq<char>, upstream: seq<char>, c: Conn) {
    && Inv(k, request, upstream, c) && c.phase == ForwardResponse
    && InTransit(k, c) == [] && c.poll1 == ForRead && c.poll0 == NotPolled
  }

  /** The upstream takes all that is left of the request. */
  lemma RequestPasses(k: Kind, request: seq<char>, upstream: seq<char>, c: Conn) returns (call: Call)
    requires Inv(k, request, upstream, c) && (c.phase == WaitConnect || c.phase == ForwardRequest)
    ensures Registered(c, call.event) && Possible(k, upstream, c, call.event, call.os)
    ensures Process.requires(k, c, call.event, call.os) && AfterCall(Process(k, c, call.event, call.os)).Alive?
    ensures Relaying(k, request, upstream, AfterCall(Process(k, c, call.event, call.os)).conn)
  {
    hide Ring.Contents, Ring.Exposed, Ring.Consumed;
    ExposedIsPrefix(c.ring);
    WrappedKeeps(c.ring);
    var n := c.ring.ReadRoom();
    call := Call(Writable(), Answers(Wrote(n), ReadBlocked, WriteBlocked));
    CallKeepsInv(k, request, upstream, c, call.event, call.os);
    ConsumedDrops(c.ring, n);
    ClearedIsEmpty(c.ring.Consumed(n));
  }

  lemma ClearedIsEmpty(r: Ring)
    ensures r.Cleared().Ok() && r.Cleared().Contents() == []
  {
  }

  /** One more byte of the response comes and goes. */
  lemma BytePasses(k: Kind, request: seq<char>, upstream: seq<char>, c: Conn) returns (call: Call)
    requires Relaying(k, request, upstream, c) && |c.fromUpstream| < |upstream|
    ensures Registered(c, call.event) && Possible(k, upstream, c, call.event, call.os)
    ensures Process.requires(k, c, call.event, call.os) && AfterCall(Process(k, c, call.event, call.os)).Alive?
    ensures Relaying(k, request, upstream, AfterCall(Process(k, c, call.event, call.os)).conn)
    ensures |AfterCall(Process(k, c, call.event, call.os)).conn.fromUpstream| == |c.fromUpstream| + 1
  {
    hide Ring.Contents, Ring.Exposed, Ring.Consumed, Ring.Written, Ring.Wrapped, Ring.WriteRoom, Ring.ReadRoom;
    var b := upstream[|c.fromUpstream|..|c.fromUpstream| + 1];
    call := Call(Readable(), Answers(WriteBlocked, Got(b), Wrote(1)));
    assert c.fromUpstream + b <= upstream;
    if k.ReadWrite? {
      BytesThroughRing(c.ring, b);
      assert c.ring.Ok();
    } else {
      WrappedKeeps(c.ring);
    }
    CallKeepsInv(k, request, upstream, c, call.event, call.os);
  }

  /** The upstream closes behind its last byte. */
  lemma EndPasses(k: Kind, request: seq<char>, upstream: seq<char>, c: Conn) returns (call: Call)
    requires Relaying(k, request, upstream, c) && c.fromUpstream == upstream
    ensures Registered(c, call.event) && Possible(k, upstream, c, call.event, call.os)
    ensures Process.requires(k, c, call.event, call.os) && Process(k, c, call.event, call.os).result == RemoveOk
  {
    hide Ring.Contents, Ring.Exposed, Ring.Consumed;
    WrappedKeeps(c.ring);
    RoomIsFree(c.ring);
    ExposedIsPrefix(c.ring.Wrapped());
    call := Call(Readable(), Answers(WriteBlocked, EndOfStream, WriteBlocked));
  }

  lemma {:induction false} ResponsePasses(k: Kind, request: seq<char>, upstream: seq<char>, c: Conn)
    returns (calls: seq<Call>)
    requires Relaying(k, request, upstream, c)
    ensures Finishes(k, request, upstream, c, calls)
    decreases |upstream| - |c.fromUpstream|
  {
    hide Process, Possible, Registered, Inv, Finishes;
    ReadSoFar(k, request, upstream, c);
    if c.fromUpstream == upstream {
      var call := EndPasses(k, request, upstream, c);
      FinishesNow(k, request, upstream, c, call);
      calls := [call];
    } else {
      var call := BytePasses(k, request, upstream, c);
      var rest := ResponsePasses(k, request, upstream, AfterCall(Process(k, c, call.event, call.os)).conn);
      FinishesNext(k, request, upstream, c, call, rest);
      calls := [call] + rest;
    }
  }

  lemma ReadSoFar(k: Kind, request: seq<char>, upstream: seq<char>, c: Conn)
    requires Relaying(k, request, upstream, c)
    ensures c.ring.Ok() && c.fromUpstream <= upstream && (c.fromUpstream != upstream ==> |c.fromUpstream| < |upstream|)
  {
    if |c.fromUpstream| == |upstream| {
      assert c.fromUpstream == upstream;
    }
  }

  /** From every state in which the request is still being forwarded, whatever is left of it, either executor can go on
      to the end of the exchange. */
  lemma CanFinish(k: Kind, request: seq<char>, upstream: seq<char>, c: Conn) returns (calls: seq<Call>)
    requires Inv(k, request, upstream, c) && (c.phase == WaitConnect || c.phase == ForwardRequest)
    ensures Finishes(k, request, upstream, c, calls)
  {
    hide Process, Possible, Registered, Inv, Finishes, Relaying;
    InvOk(k, request, upstream, c);
    var call := RequestPasses(k, request, upstream, c);
    var rest := ResponsePasses(k, request, upstream, AfterCall(Process(k, c, call.event, call.os)).conn);
    FinishesNext(k, request, upstream, c, call, rest);
    calls := [call] + rest;
  }

  /** Every request that is handed over and every response, of whatever length, can be passed on whole: the set-up
      succeeds if and only if the kernel grants the two registrations, and then there is a run that is removed as
      finished, with the upstream's socket connected at once or later. */
  lemma EveryExchangeCanFinish(k: Kind, ring: Ring, request: seq<char>, upstream: seq<char>, retry: nat,
                               connected: bool, os: Os)
    requires HandedOver(ring, request)
    ensures var up := Up(ring, ForRead, retry, connected, os);
            && (up.Started? <==> os.addOk && os.delOk)
            && (up.Started? ==> exists calls :: Finishes(k, request, upstream, up.conn, calls))
  {
    hide Process, Possible, Registered, Inv, Finishes, Ring.Contents, Ring.Ok;
    if os.addOk && os.delOk {
      UpInv(k, ring, retry, ForRead, connected, os, upstream);
      var calls := CanFinish(k, request, upstream, Up(ring, ForRead, retry, connected, os).conn);
    }
  }
}
