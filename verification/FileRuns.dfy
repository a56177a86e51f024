/** Whole runs of the file executors: the client gets the header and a prefix of the file, all of it if
    the connection is removed as finished, and a connection takes a bounded number of calls unless TLS
    keeps asking to write. */
module FileRuns {
  import opened CString
  import opened ExecutorLimits
  import opened ProcessResults
  import opened RingBuffer
  import opened FileModel
  import opened Sequences

  const SIZE: nat := REQUEST_BUFFER_SIZE
  const MAX_RETRIES: int := MAX_RETRY_COUNTER

  /** `size` is the file's size when it was opened, `file` its bytes while it is sent. */
  ghost predicate HeaderPhase(size: nat, header: seq<char>, c: Conn)
    requires c.ring.Ok()
  {
    && !c.phase.SendFile?
    && c.ring.readHead <= c.ring.writeHead && c.ring.Contents() != []
    && c.toClient + c.ring.Contents() == header
    && c.fromFile == [] && c.filePosition == 0
    && (c.phase.SendHeaders? ==> c.fileOpen && c.bytesToSend == size)
  }

  ghost predicate FilePhase(m: Mode, file: seq<char>, size: nat, header: seq<char>, c: Conn)
    requires c.ring.Ok()
  {
    && c.phase.SendFile? && header <= c.toClient
    && c.bytesToSend == size - (|c.toClient| - |header|)
    && match m
       case Plain =>
         && c.filePosition <= |file| && c.toClient == header + file[..c.filePosition]
         && c.bytesToSend >= 0 && c.ring.Contents() == [] && c.fromFile == []
       case Tls =>
         && c.filePosition == 0 && c.toClient + c.ring.Contents() == header + c.fromFile
         && c.fromFile <= file && (!c.fileOpen ==> c.fromFile == file)
  }

  ghost predicate Inv(m: Mode, file: seq<char>, size: nat, header: seq<char>, c: Conn) {
    && 0 <= c.retry && c.ring.Ok() && |c.ring.store| == SIZE
    && (HeaderPhase(size, header, c) || FilePhase(m, file, size, header, c))
    && c.interest != ForReading && (m.Plain? ==> c.interest == ForWriting)
  }

  /** Set-up replaces whatever the ring held by the response. */
  lemma UpInv(m: Mode, ring: Ring, open: OpenAnswer, statOk: bool, response: seq<char>, modOk: bool, retry: nat,
              file: seq<char>)
    requires ring.Ok() && |ring.store| == SIZE && response != []
    requires Up(ring, open, statOk, response, modOk, retry).Started?
    ensures var c := Up(ring, open, statOk, response, modOk, retry).conn;
            Inv(m, file, if open.Opened? then open.size else 0, response, c)
  {
    var r := ring.Cleared();
    FilledKeeps(r, response + [NUL]);
    AdvancedAppends(r.Filled(response + [NUL]), |response|);
    assert r.Filled(response + [NUL]).store[0..|response|] == response;
  }

  // ---- Events ----

  /** A registered event is refused exactly when a TLS write of the header asked to read first and the
      socket then becomes readable but not writable. */
  lemma RefusedExactly(m: Mode, file: seq<char>, size: nat, header: seq<char>, c: Conn, e: Event)
    requires Inv(m, file, size, header, c) && Registered(c, e)
    ensures !Expected(m, c, e) <==> m.Tls? && !c.phase.SendFile? && c.interest == ForBoth && !e.writable
  {
  }

  // ---- One call ----

  ghost predicate GoodOutcome(m: Mode, file: seq<char>, size: nat, header: seq<char>, wholeFile: bool, o: Outcome) {
    match o.result
    case Proceed => Inv(m, file, size, header, o.conn)
    case RemoveOk => if wholeFile then Delivered(file, size, header, o.conn) else o.conn.toClient == header
    case RemoveError => true
    case Shutdown => false
  }

  /** The header and exactly the bytes that the header announced. */
  ghost predicate Delivered(file: seq<char>, size: nat, header: seq<char>, c: Conn) {
    0 < size <= |file| && c.toClient == header + file[..size]
  }

  lemma HeadersSent(m: Mode, file: seq<char>, size: nat, header: seq<char>, c: Conn, os: Os)
    requires Inv(m, file, size, header, c) && !c.phase.SendFile? && Possible(m, file, c, os)
    ensures GoodOutcome(m, file, size, header, false, StepSendHeaders(c, os))
    ensures c.phase.SendHeaders? ==> StepSendHeaders(c, os).result != RemoveOk
  {
    hide Ring.Exposed, Ring.Consumed, Ring.ReadRoom, Ring.WriteRoom;
    ExposedIsPrefix(c.ring);
    if os.write.Wrote? {
      var n := os.write.n;
      ConsumedDrops(c.ring, n);
      ConsumedKeepsOrder(c.ring, n);
      ReadSplits(c.ring, n);
      Assoc(c.toClient, c.ring.Exposed()[..n], c.ring.Consumed(n).Contents());
      if n == c.ring.ReadRoom() {
        var done := c.ring.Consumed(n).Cleared();
        assert done.Ok() && done.Contents() == [];
        assert c.ring.Consumed(n).Contents() == [];
        assert header + file[..0] == header && header + [] == header;
      }
    }
  }

  lemma FileSent(file: seq<char>, size: nat, header: seq<char>, c: Conn, os: Os)
    requires Inv(Plain, file, size, header, c) && c.phase.SendFile? && Possible(Plain, file, c, os)
    ensures GoodOutcome(Plain, file, size, header, true, StepSendFile(c, os))
  {
    if os.file.Moved? {
      var n := |os.file.bytes|;
      assert file[..c.filePosition] + file[c.filePosition..c.filePosition + n] == file[..c.filePosition + n];
      Assoc(header, file[..c.filePosition], os.file.bytes);
    }
  }

  lemma FileReadIn(file: seq<char>, size: nat, header: seq<char>, c: Conn, os: Os)
    requires Inv(Tls, file, size, header, c) && c.phase.SendFile? && Possible(Tls, file, c, os)
    requires ReadFile(c, os).FileRead?
    ensures var r := ReadFile(c, os);
            && Inv(Tls, file, size, header, r.conn) && r.conn.phase.SendFile?
            && r.conn.toClient == c.toClient && r.conn.retry == c.retry
            && (r.conn.fileOpen ==> r.conn.ring.ReadRoom() > 0)
  {
    hide Ring.Contents, Ring.Exposed, Ring.Written;
    RoomIsFree(c.ring);
    WrappedKeeps(c.ring);
    if c.fileOpen && c.ring.Wrapped().WriteRoom() > 0 && os.file.Moved? {
      WrittenAppends(c.ring, os.file.bytes);
      Assoc(c.toClient, c.ring.Contents(), os.file.bytes);
      Assoc(header, c.fromFile, os.file.bytes);
    }
    ExposedIsPrefix(ReadFile(c, os).conn.ring);
  }

  /** The branch that reports "buffer.startRead failed" is never taken. */
  lemma StartReadNeverFails(file: seq<char>, size: nat, header: seq<char>, c: Conn, os: Os)
    requires Inv(Tls, file, size, header, c) && c.phase.SendFile? && Possible(Tls, file, c, os)
    requires ReadFile(c, os).FileRead?
    ensures !(ReadFile(c, os).conn.ring.ReadRoom() == 0 && ReadFile(c, os).conn.fileOpen)
  {
    hide Inv, Possible, ReadFile;
    FileReadIn(file, size, header, c, os);
  }

  lemma RingSent(file: seq<char>, size: nat, header: seq<char>, c: Conn, moved: bool, os: Os)
    requires Inv(Tls, file, size, header, c) && c.phase.SendFile?
    requires os.write.Wrote? ==> 1 <= os.write.n <= c.ring.ReadRoom()
    ensures GoodOutcome(Tls, file, size, header, true, WriteRing(c, moved, os))
  {
    hide Ring.Exposed, Ring.Consumed, Ring.ReadRoom, Ring.Contents;
    ExposedIsPrefix(c.ring);
    if c.ring.ReadRoom() > 0 && os.write.Wrote? {
      var n := os.write.n;
      ConsumedDrops(c.ring, n);
      ReadSplits(c.ring, n);
      RingSentCounts(file, size, header, c, n);
    }
  }

  lemma RingSentCounts(file: seq<char>, size: nat, header: seq<char>, c: Conn, n: nat)
    requires Inv(Tls, file, size, header, c) && c.phase.SendFile? && 1 <= n <= c.ring.ReadRoom()
    requires c.ring.Consumed(n).Ok() && n <= |c.ring.Exposed()|
    requires c.ring.Contents() == c.ring.Exposed()[..n] + c.ring.Consumed(n).Contents()
    ensures var out := c.toClient + c.ring.Exposed()[..n];
            && out + c.ring.Consumed(n).Contents() == header + c.fromFile && header <= out
            && (c.bytesToSend == n ==> 0 < size <= |file| && out == header + file[..size])
  {
    hide Ring.Contents, Ring.Exposed, Ring.Consumed;
    var out := c.toClient + c.ring.Exposed()[..n];
    Assoc(c.toClient, c.ring.Exposed()[..n], c.ring.Consumed(n).Contents());
    assert out == (header + c.fromFile)[..|out|];
    if c.bytesToSend == n {
      assert |out| == |header| + size;
      assert size <= |c.fromFile|;
      assert (header + c.fromFile)[..|out|] == header + c.fromFile[..size];
      assert c.fromFile[..size] == file[..size];
    }
  }

  /** One call on a reachable state, whatever is answered: a connection that stays keeps the invariant, and
      one that is removed as finished has sent the whole header and, when a body was announced, exactly the
      announced bytes of the file. */
  lemma CallKeepsInv(m: Mode, file: seq<char>, size: nat, header: seq<char>, c: Conn, e: Event, os: Os)
    requires Inv(m, file, size, header, c) && Possible(m, file, c, os)
    ensures m.Tls? && c.phase.SendFile? ==> Fits(c, os)
    ensures GoodOutcome(m, file, size, header, c.phase.SendFile?, Process(m, c, e, os))
    ensures c.phase.SendHeaders? ==> Process(m, c, e, os).result != RemoveOk
  {
    if !c.phase.SendFile? {
      HeadersSent(m, file, size, header, c, os);
    } else if m.Plain? {
      FileSent(file, size, header, c, os);
    } else if ReadFile(c, os).FileRead? {
      var r := ReadFile(c, os);
      FileReadIn(file, size, header, c, os);
      RingSent(file, size, header, r.conn, r.moved, os);
    }
  }

  // ---- Progress ----

  /** Steps still to be made: each byte of the file once per hop, the bytes in the ring, the header, the
      end of the file. */
  function Work(file: seq<char>, c: Conn): int
    requires c.ring.Ok()
  {
    (if c.phase.SendFile? then 0 else 1) + |c.ring.Contents()| + 2 * (|file| - |c.fromFile|)
    + (|file| - c.filePosition) + (if c.fileOpen then 1 else 0)
  }

  ghost predicate Progress(file: seq<char>, c: Conn, c': Conn)
    requires c.ring.Ok() && c'.ring.Ok()
  {
    Work(file, c') < Work(file, c) || (Work(file, c') == Work(file, c) && c'.retry == c.retry + 1)
  }

  /** TLS wants to write first and nothing could be read from the file. */
  predicate Idle(m: Mode, c: Conn, os: Os)
    requires c.ring.Ok() && c.ring.Wrapped().Ok()
  {
    && m.Tls? && c.phase.SendFile? && os.write.WantWrite?
    && c.ring.ReadRoom() > 0
    && (!c.fileOpen || c.ring.Wrapped().WriteRoom() == 0)
  }

  lemma HeaderProgress(file: seq<char>, c: Conn, os: Os)
    requires c.ring.Ok() && !c.phase.SendFile?
    requires os.write.Wrote? ==> 1 <= os.write.n <= c.ring.ReadRoom()
    requires StepSendHeaders(c, os).result == Proceed
    ensures StepSendHeaders(c, os).conn.ring.Ok()
    ensures Progress(file, c, StepSendHeaders(c, os).conn)
  {
    if os.write.Wrote? {
      ConsumedDrops(c.ring, os.write.n);
    }
  }

  lemma ReadProgress(file: seq<char>, c: Conn, os: Os)
    requires Fits(c, os) && ReadFile(c, os).FileRead? && (os.file.Moved? ==> os.file.bytes != [])
    ensures var r := ReadFile(c, os);
            && r.conn.retry == c.retry
            && Work(file, r.conn) <= Work(file, c)
            && (Work(file, r.conn) == Work(file, c) <==> !c.fileOpen || c.ring.Wrapped().WriteRoom() == 0)
            && (r.moved ==> Work(file, r.conn) < Work(file, c))
            && (Work(file, r.conn) == Work(file, c) ==>
                  !r.moved && r.conn == if c.fileOpen then c.(ring := c.ring.Wrapped()) else c)
  {
    hide Ring.Contents, Ring.Exposed, Ring.Written;
    WrappedKeeps(c.ring);
    if os.file.Moved? {
      WrittenAppends(c.ring, os.file.bytes);
    }
  }

  lemma WriteProgress(file: seq<char>, c: Conn, moved: bool, os: Os)
    requires c.ring.Ok() && (os.write.Wrote? ==> 1 <= os.write.n <= c.ring.ReadRoom())
    requires WriteRing(c, moved, os).result == Proceed
    ensures var c' := WriteRing(c, moved, os).conn;
            && c'.ring.Ok() && Work(file, c') <= Work(file, c)
            && (os.write.Wrote? && c.ring.ReadRoom() > 0 ==> Work(file, c') < Work(file, c))
            && (os.write.WantWrite? && c.ring.ReadRoom() > 0 ==> c' == c)
            && (!os.write.Wrote? && !os.write.WantWrite? && !moved ==> c'.retry == c.retry + 1)
            && (c.ring.ReadRoom() == 0 && !moved ==> c'.retry == c.retry + 1)
  {
    hide Ring.Contents, Ring.Exposed;
    if os.write.Wrote? {
      ConsumedDrops(c.ring, os.write.n);
    }
  }

  lemma WrappedReadRoom(r: Ring)
    requires r.Ok()
    ensures r.Wrapped().Ok() && (r.ReadRoom() > 0 <==> r.Wrapped().ReadRoom() > 0)
  {
    WrappedKeeps(r);
    ExposedIsPrefix(r);
    ExposedIsPrefix(r.Wrapped());
  }

  /** A surviving call moves something forward or counts a retry, with exactly one exception: it does neither
      when TLS wants to write and the ring could not be refilled. Then it changes nothing at all. */
  lemma NoProgressExactly(m: Mode, file: seq<char>, size: nat, header: seq<char>, c: Conn, e: Event, os: Os)
    requires Inv(m, file, size, header, c) && Possible(m, file, c, os)
    requires m.Tls? && c.phase.SendFile? ==> Fits(c, os)
    requires Process(m, c, e, os).result == Proceed
    ensures Process(m, c, e, os).conn.ring.Ok() && c.ring.Wrapped().Ok()
    ensures Progress(file, c, Process(m, c, e, os).conn) <==> !Idle(m, c, os)
    ensures Idle(m, c, os) ==>
              Process(m, c, e, os).conn == c || Process(m, c, e, os).conn == c.(ring := c.ring.Wrapped())
  {
    hide Ring.Contents, Ring.Exposed, Ring.Written;
    WrappedReadRoom(c.ring);
    if !c.phase.SendFile? {
      HeaderProgress(file, c, os);
    } else if m.Tls? {
      TlsProgress(file, c, os);
    }
  }

  lemma TlsProgress(file: seq<char>, c: Conn, os: Os)
    requires Fits(c, os) && c.phase.SendFile? && (os.file.Moved? ==> os.file.bytes != [])
    requires ReadFile(c, os).FileRead? && os.write.Wrote? ==> 1 <= os.write.n <= ReadFile(c, os).conn.ring.ReadRoom()
    requires StepSendFileTls(c, os).result == Proceed
    ensures var c' := StepSendFileTls(c, os).conn;
            && c'.ring.Ok() && (Progress(file, c, c') <==> !Idle(Tls, c, os))
            && (Idle(Tls, c, os) ==> c' == c || c' == c.(ring := c.ring.Wrapped()))
  {
    hide Ring.Contents, Ring.Exposed, Ring.Written, Work, ReadFile, WriteRing;
    WrappedReadRoom(c.ring);
    var r := ReadFile(c, os);
    ReadProgress(file, c, os);
    WriteProgress(file, r.conn, r.moved, os);
  }

  // ---- Runs ----

  datatype Call = Call(event: Event, os: Os)

  datatype Life = Alive(conn: Conn) | Removed(result: ProcessResult, conn: Conn)

  /** The poll loop's treatment of one call. */
  function AfterCall(o: Outcome): Life {
    if o.result != Proceed then Removed(o.result, o.conn)
    else if o.conn.retry > MAX_RETRIES then Removed(RemoveError, o.conn)
    else Alive(o.conn)
  }

  predicate Callable(m: Mode, c: Conn, os: Os) {
    c.ring.Ok() && c.ring.Wrapped().Ok() && (m.Tls? && c.phase.SendFile? ==> Fits(c, os))
  }

  ghost predicate PossibleRun(m: Mode, file: seq<char>, c: Conn, calls: seq<Call>)
    decreases |calls|
  {
    calls == [] || (
      && Callable(m, c, calls[0].os) && Registered(c, calls[0].event) && Possible(m, file, c, calls[0].os)
      && var l := AfterCall(Process(m, c, calls[0].event, calls[0].os));
         if l.Alive? then PossibleRun(m, file, l.conn, calls[1..]) else |calls| == 1)
  }

  ghost function Live(m: Mode, file: seq<char>, c: Conn, calls: seq<Call>): Life
    requires PossibleRun(m, file, c, calls)
    decreases |calls|
  {
    if calls == [] then Alive(c)
    else
      var l := AfterCall(Process(m, c, calls[0].event, calls[0].os));
      if l.Alive? then Live(m, file, l.conn, calls[1..]) else l
  }

  /** The calls of a run that were not idle. */
  ghost function ActiveCalls(m: Mode, file: seq<char>, c: Conn, calls: seq<Call>): nat
    requires PossibleRun(m, file, c, calls)
    decreases |calls|
  {
    if calls == [] then 0
    else
      var l := AfterCall(Process(m, c, calls[0].event, calls[0].os));
      (if Idle(m, c, calls[0].os) then 0 else 1)
      + if l.Alive? then ActiveCalls(m, file, l.conn, calls[1..]) else 0
  }

  /** Every run: what the client has got is a prefix of the header followed by the file, and a connection that
      had a file to send and is removed as finished has delivered all that its header announced. */
  lemma {:induction false} RunsSendWholeFile(m: Mode, file: seq<char>, size: nat, header: seq<char>, c: Conn,
                                             calls: seq<Call>)
    requires Inv(m, file, size, header, c) && !c.phase.SendOnlyHeaders? && PossibleRun(m, file, c, calls)
    ensures match Live(m, file, c, calls)
            case Alive(c') =>
              Inv(m, file, size, header, c') && !c'.phase.SendOnlyHeaders? && c'.toClient <= header + file
            case Removed(RemoveOk, c') => Delivered(file, size, header, c')
            case Removed(_, _) => true
    decreases |calls|
  {
    hide Process, Inv, Possible, Registered, Ring.Ok;
    if calls != [] {
      CallKeepsInv(m, file, size, header, c, calls[0].event, calls[0].os);
      PhaseGoesOn(m, c, calls[0].event, calls[0].os);
      var l := AfterCall(Process(m, c, calls[0].event, calls[0].os));
      if l.Alive? {
        RunsSendWholeFile(m, file, size, header, l.conn, calls[1..]);
      }
    } else {
      ClientSeesPrefix(m, file, size, header, c);
    }
  }

  /** Every run of a connection that is answered with a header only: what the client has got is a prefix of the
      header, and a connection that is removed as finished has sent all of it. */
  lemma {:induction false} RunsSendHeader(m: Mode, file: seq<char>, size: nat, header: seq<char>, c: Conn,
                                          calls: seq<Call>)
    requires Inv(m, file, size, header, c) && c.phase.SendOnlyHeaders? && PossibleRun(m, file, c, calls)
    ensures match Live(m, file, c, calls)
            case Alive(c') => Inv(m, file, size, header, c') && c'.phase.SendOnlyHeaders? && c'.toClient < header
            case Removed(RemoveOk, c') => c'.toClient == header
            case Removed(_, _) => true
    decreases |calls|
  {
    hide Process, Inv, Possible, Registered, Ring.Ok;
    if calls != [] {
      CallKeepsInv(m, file, size, header, c, calls[0].event, calls[0].os);
      PhaseGoesOn(m, c, calls[0].event, calls[0].os);
      var l := AfterCall(Process(m, c, calls[0].event, calls[0].os));
      if l.Alive? {
        RunsSendHeader(m, file, size, header, l.conn, calls[1..]);
      }
    } else {
      HeaderSentInPart(m, file, size, header, c);
    }
  }

  lemma HeaderSentInPart(m: Mode, file: seq<char>, size: nat, header: seq<char>, c: Conn)
    requires Inv(m, file, size, header, c) && !c.phase.SendFile?
    ensures c.toClient < header
  {
    hide Ring.Contents;
  }

  lemma PhaseGoesOn(m: Mode, c: Conn, e: Event, os: Os)
    requires Callable(m, c, os)
    ensures var c' := Process(m, c, e, os).conn;
            (c'.phase.SendOnlyHeaders? <==> c.phase.SendOnlyHeaders?) && (c.phase.SendFile? ==> c'.phase.SendFile?)
  {
    hide Ring.Ok, Ring.Exposed, Ring.Written, Ring.Wrapped;
  }

  lemma ClientSeesPrefix(m: Mode, file: seq<char>, size: nat, header: seq<char>, c: Conn)
    requires Inv(m, file, size, header, c)
    ensures c.toClient <= header + file
  {
    if c.phase.SendFile? && m.Tls? {
      assert c.toClient <= header + c.fromFile;
      assert header + c.fromFile <= header + file;
    }
  }

  function CallsLeft(file: seq<char>, c: Conn): int
    requires c.ring.Ok()
  {
    Work(file, c) * (MAX_RETRIES + 2) + (MAX_RETRIES + 1 - c.retry)
  }

  lemma InvWork(m: Mode, file: seq<char>, size: nat, header: seq<char>, c: Conn)
    requires Inv(m, file, size, header, c)
    ensures c.ring.Ok() && 0 <= c.retry && Work(file, c) >= 0
    ensures c.retry <= MAX_RETRIES ==> CallsLeft(file, c) > 0
  {
  }

  lemma SameWork(file: seq<char>, c: Conn)
    requires c.ring.Ok()
    ensures c.ring.Wrapped().Ok() && Work(file, c.(ring := c.ring.Wrapped())) == Work(file, c)
  {
    WrappedKeeps(c.ring);
  }

  /** A connection is cut off after a bounded number of calls that are not idle; over a clear connection no
      call is idle, so that bounds its life. */
  lemma {:induction false} RunsAreBounded(m: Mode, file: seq<char>, size: nat, header: seq<char>, c: Conn,
                                          calls: seq<Call>)
    requires Inv(m, file, size, header, c) && PossibleRun(m, file, c, calls) && c.retry <= MAX_RETRIES
    ensures c.ring.Ok() && ActiveCalls(m, file, c, calls) <= CallsLeft(file, c)
    ensures m.Plain? ==> |calls| <= CallsLeft(file, c)
    decreases |calls|
  {
    hide Process, Inv, Possible, Registered, Work, Ring.Ok, Ring.Wrapped;
    InvWork(m, file, size, header, c);
    if calls != [] {
      CallKeepsInv(m, file, size, header, c, calls[0].event, calls[0].os);
      var o := Process(m, c, calls[0].event, calls[0].os);
      if AfterCall(o).Alive? {
        NoProgressExactly(m, file, size, header, c, calls[0].event, calls[0].os);
        SameWork(file, c);
        InvWork(m, file, size, header, o.conn);
        RunsAreBounded(m, file, size, header, o.conn, calls[1..]);
      }
    }
  }

  /** The exception has no bound: with the file read to its end, a TLS connection survives any number of calls
      in which it wants to write. */
  lemma {:induction false} IdleForever(file: seq<char>, size: nat, header: seq<char>, c: Conn, calls: seq<Call>)
    requires Inv(Tls, file, size, header, c) && c.phase.SendFile? && !c.fileOpen && c.ring.Contents() != []
    requires c.retry <= MAX_RETRIES
    requires forall i :: 0 <= i < |calls| ==> calls[i] == Call(Event(false, true), Os(WantWrite, Blocked, true))
    ensures PossibleRun(Tls, file, c, calls) && Live(Tls, file, c, calls) == Alive(c)
  {
    if calls != [] {
      WrappedKeeps(c.ring);
      ExposedIsPrefix(c.ring);
      IdleForever(file, size, header, c, calls[1..]);
    }
  }

  // ---- Which files can be served ----

  ghost predicate Finishes(m: Mode, file: seq<char>, c: Conn, calls: seq<Call>) {
    && PossibleRun(m, file, c, calls)
    && Live(m, file, c, calls).Removed? && Live(m, file, c, calls).result == RemoveOk
  }

  lemma FinishesNext(m: Mode, file: seq<char>, c: Conn, call: Call, rest: seq<Call>)
    requires Callable(m, c, call.os) && Registered(c, call.event) && Possible(m, file, c, call.os)
    requires AfterCall(Process(m, c, call.event, call.os)).Alive?
    requires Finishes(m, file, AfterCall(Process(m, c, call.event, call.os)).conn, rest)
    ensures Finishes(m, file, c, [call] + rest)
  {
    hide Process, Possible, Registered, Callable;
    assert ([call] + rest)[1..] == rest;
  }

  lemma FinishesNow(m: Mode, file: seq<char>, c: Conn, call: Call)
    requires Callable(m, c, call.os) && Registered(c, call.event) && Possible(m, file, c, call.os)
    requires Process(m, c, call.event, call.os).result == RemoveOk
    ensures Finishes(m, file, c, [call])
  {
    hide Process, Possible, Registered, Callable;
  }

  /** The answers that move the next `n` bytes of the file to the client. */
  function NextBytes(m: Mode, file: seq<char>, c: Conn, n: nat): Os {
    var at := if m.Plain? then c.filePosition else |c.fromFile|;
    Os(Wrote(n), if at + n <= |file| then Moved(file[at..at + n]) else EndOfFile, true)
  }

  ghost predicate BodyPending(m: Mode, file: seq<char>, size: nat, header: seq<char>, c: Conn) {
    && Inv(m, file, size, header, c) && c.phase.SendFile?
    && (m.Tls? ==> c.fileOpen && c.ring.Contents() == [])
  }

  /** What a call leaves behind that moves `n` bytes. */
  ghost predicate Moves(m: Mode, file: seq<char>, size: nat, header: seq<char>, c: Conn, n: nat) {
    var call := Call(Event(false, true), NextBytes(m, file, c, n));
    && Callable(m, c, call.os) && Possible(m, file, c, call.os) && Registered(c, call.event)
    && var o := Process(m, c, call.event, call.os);
       && |o.conn.toClient| == |c.toClient| + n
       && if c.bytesToSend == n then o.result == RemoveOk
          else AfterCall(o).Alive? && BodyPending(m, file, size, header, o.conn)
               && o.conn.bytesToSend == c.bytesToSend - n
  }

  lemma ClearBytesMove(file: seq<char>, size: nat, header: seq<char>, c: Conn, n: nat)
    requires BodyPending(Plain, file, size, header, c) && size <= |file| && 1 <= n <= c.bytesToSend
    ensures Moves(Plain, file, size, header, c, n)
  {
    hide Ring.Contents, Ring.Exposed, Ring.Written, Ring.Consumed, Ring.ReadRoom, Ring.WriteRoom, Ring.Filled;
    RoomIsFree(c.ring);
    assert |c.toClient| == |header| + c.filePosition;
    CallKeepsInv(Plain, file, size, header, c, Event(false, true), NextBytes(Plain, file, c, n));
  }

  lemma RingBytesMove(file: seq<char>, size: nat, header: seq<char>, c: Conn, n: nat)
    requires BodyPending(Tls, file, size, header, c) && 1 <= n && |c.fromFile| + n <= |file|
    requires c.ring.readHead + n <= SIZE
    ensures Moves(Tls, file, size, header, c, n)
  {
    hide Ring.Contents, Ring.Exposed, Ring.Written, Ring.Consumed, Ring.ReadRoom, Ring.WriteRoom, Ring.Wrapped;
    var b := file[|c.fromFile|..|c.fromFile| + n];
    BytesThroughRing(c.ring, b);
    var os := NextBytes(Tls, file, c, n);
    BytesCall(c, b, os);
    assert c.fromFile + b <= file;
    CallKeepsInv(Tls, file, size, header, c, Event(false, true), os);
  }

  /** What a call does that reads bytes into an empty ring and sends them. */
  lemma BytesCall(c: Conn, b: seq<char>, os: Os)
    requires c.phase.SendFile? && c.fileOpen && 1 <= |b| && os == Os(Wrote(|b|), Moved(b), true)
    requires Fits(c, os) && |b| <= c.ring.Wrapped().WriteRoom()
    requires c.ring.Written(b).ReadRoom() == |b| && c.ring.Written(b).Exposed() == b
    ensures var o := StepSendFileTls(c, os);
            && o.conn.bytesToSend == c.bytesToSend - |b| && o.conn.ring == c.ring.Written(b).Consumed(|b|)
            && o.conn.fileOpen && o.conn.phase.SendFile? && o.conn.toClient == c.toClient + b
            && ReadFile(c, os).FileRead? && ReadFile(c, os).conn.ring == c.ring.Written(b)
            && if c.bytesToSend == |b| then o.result == RemoveOk
               else o.result == Proceed && o.conn.retry == 0
  {
    hide Ring.Contents, Ring.Exposed, Ring.Written, Ring.Consumed, Ring.ReadRoom, Ring.WriteRoom, Ring.Wrapped;
  }

  lemma OneByteMoves(m: Mode, file: seq<char>, size: nat, header: seq<char>, c: Conn)
    requires BodyPending(m, file, size, header, c) && 0 < c.bytesToSend && size <= |file|
    ensures Moves(m, file, size, header, c, 1)
  {
    hide Ring.Contents, Ring.Exposed, Ring.Written, Ring.Consumed, Ring.ReadRoom, Ring.WriteRoom, Ring.Wrapped, Moves;
    if m.Tls? {
      PendingCounts(file, size, header, c);
      RingBytesMove(file, size, header, c, 1);
    } else {
      ClearBytesMove(file, size, header, c, 1);
    }
  }

  lemma PendingCounts(file: seq<char>, size: nat, header: seq<char>, c: Conn)
    requires BodyPending(Tls, file, size, header, c)
    ensures |c.fromFile| == size - c.bytesToSend && |c.toClient| == |header| + |c.fromFile|
    ensures c.ring.readHead < SIZE
  {
    assert |c.toClient + c.ring.Contents()| == |c.toClient|;
  }

  lemma {:induction false} FinishFile(m: Mode, file: seq<char>, size: nat, header: seq<char>, c: Conn)
    returns (calls: seq<Call>)
    requires BodyPending(m, file, size, header, c) && 0 < c.bytesToSend && size <= |file|
    ensures Finishes(m, file, c, calls)
    decreases c.bytesToSend
  {
    hide Process, Inv, Possible, NextBytes;
    OneByteMoves(m, file, size, header, c);
    var call := Call(Event(false, true), NextBytes(m, file, c, 1));
    if c.bytesToSend == 1 {
      FinishesNow(m, file, c, call);
      calls := [call];
    } else {
      var c' := AfterCall(Process(m, c, call.event, call.os)).conn;
      var rest := FinishFile(m, file, size, header, c');
      FinishesNext(m, file, c, call, rest);
      calls := [call] + rest;
    }
  }

  /** The client takes the whole header at once. */
  lemma HeaderGoesOut(m: Mode, file: seq<char>, size: nat, header: seq<char>, c: Conn) returns (call: Call)
    requires Inv(m, file, size, header, c) && c.phase.SendHeaders?
    ensures Callable(m, c, call.os) && Registered(c, call.event) && Possible(m, file, c, call.os)
    ensures AfterCall(Process(m, c, call.event, call.os)).Alive?
    ensures var c' := AfterCall(Process(m, c, call.event, call.os)).conn;
            BodyPending(m, file, size, header, c') && c'.bytesToSend == size && InStep(header, c')
  {
    hide Ring.Exposed, Ring.Consumed, Ring.ReadRoom, Ring.Wrapped;
    WrappedKeeps(c.ring);
    ExposedIsPrefix(c.ring);
    call := Call(Event(false, true), Os(Wrote(c.ring.ReadRoom()), Blocked, true));
    CallKeepsInv(m, file, size, header, c, call.event, call.os);
    assert c.toClient + c.ring.Exposed() == header;
    assert c.ring.Exposed()[..c.ring.ReadRoom()] == c.ring.Exposed();
  }

  /** A file can be served to its end if and only if it was not empty when it was opened and has not become
      shorter since: an empty file is never reported as finished, by either executor. */
  lemma ServedExactly(m: Mode, file: seq<char>, size: nat, header: seq<char>, c: Conn)
    requires Inv(m, file, size, header, c) && c.phase.SendHeaders?
    ensures (exists calls :: Finishes(m, file, c, calls)) <==> 0 < size <= |file|
  {
    hide Process, Inv, Possible, PossibleRun, Live, InStep;
    forall calls | Finishes(m, file, c, calls) ensures 0 < size <= |file| {
      RunsSendWholeFile(m, file, size, header, c, calls);
    }
    if 0 < size <= |file| {
      var call := HeaderGoesOut(m, file, size, header, c);
      var rest := FinishFile(m, file, size, header, AfterCall(Process(m, c, call.event, call.os)).conn);
      FinishesNext(m, file, c, call, rest);
    }
  }

  // ---- A file that grows while it is sent ----

  /** The bytes of the body stand in the ring where they stand in the file, modulo the ring's size. */
  ghost predicate InStep(header: seq<char>, c: Conn) {
    c.phase.SendFile? ==> |header| <= |c.toClient| && c.ring.readHead == (|c.toClient| - |header|) % SIZE
  }

  /** One call passes on bytes up to the end of the ring at most. */
  lemma TlsSends(c: Conn, os: Os)
    requires Fits(c, os) && |c.ring.store| == SIZE
    requires ReadFile(c, os).FileRead? && os.write.Wrote? ==> 1 <= os.write.n <= ReadFile(c, os).conn.ring.ReadRoom()
    ensures var o := StepSendFileTls(c, os);
            var n := |o.conn.toClient| - |c.toClient|;
            && n >= 0 && c.ring.readHead + n <= SIZE
            && (o.result == RemoveError ==> n == 0)
            && (o.result == Proceed && c.bytesToSend != 0 ==> o.conn.bytesToSend != 0)
            && (o.result == Proceed ==>
                  o.conn.ring.readHead == if c.ring.readHead + n == SIZE then 0 else c.ring.readHead + n)
  {
    hide Ring.Contents;
    if ReadFile(c, os).FileRead? {
      var r := ReadFile(c, os).conn;
      assert r.ring.readHead == c.ring.readHead && r.toClient == c.toClient && |r.ring.store| == SIZE by {
        WrappedKeeps(c.ring);
        if os.file.Moved? {
          WrittenAppends(c.ring, os.file.bytes);
        }
      }
      SendsToRingEnd(r, ReadFile(c, os).moved, os);
    }
  }

  lemma SendsToRingEnd(c: Conn, moved: bool, os: Os)
    requires c.ring.Ok() && |c.ring.store| == SIZE && (os.write.Wrote? ==> 1 <= os.write.n <= c.ring.ReadRoom())
    ensures var o := WriteRing(c, moved, os);
            var n := |o.conn.toClient| - |c.toClient|;
            && n >= 0 && c.ring.readHead + n <= SIZE
            && (o.result == RemoveError ==> n == 0)
            && (o.result == Proceed && c.bytesToSend != 0 ==> o.conn.bytesToSend != 0)
            && (o.result == Proceed ==>
                  o.conn.ring.readHead == if c.ring.readHead + n == SIZE then 0 else c.ring.readHead + n)
  {
    hide Ring.Contents;
  }

  lemma NextStep(sent: nat, n: nat)
    requires sent % SIZE + n <= SIZE
    ensures (sent + n) % SIZE == if sent % SIZE + n == SIZE then 0 else sent % SIZE + n
  {
    var q := sent / SIZE;
    assert sent + n == q * SIZE + (sent % SIZE + n);
    if sent % SIZE + n == SIZE {
      assert sent + n == (q + 1) * SIZE;
    }
  }

  /** A step that stays within the ring does not pass a multiple of its size. */
  lemma NoMultiplePassed(sent: nat, n: nat, size: nat)
    requires sent % SIZE + n <= SIZE && sent < size && size % SIZE == 0
    ensures sent + n <= size
  {
    var q, k := sent / SIZE, size / SIZE;
    assert q * SIZE <= sent < k * SIZE;
    assert q + 1 <= k;
  }

  lemma CallKeepsStep(file: seq<char>, size: nat, header: seq<char>, c: Conn, e: Event, os: Os)
    requires Inv(Tls, file, size, header, c) && Possible(Tls, file, c, os) && InStep(header, c)
    requires c.phase.SendFile? ==> Fits(c, os)
    requires Process(Tls, c, e, os).result == Proceed
    ensures InStep(header, Process(Tls, c, e, os).conn)
  {
    hide Ring.Contents, Ring.Exposed, Ring.Written, Ring.Consumed, Ring.ReadRoom, Ring.WriteRoom, Ring.Wrapped,
         StepSendFileTls, StepSendHeaders;
    var c' := Process(Tls, c, e, os).conn;
    CallKeepsInv(Tls, file, size, header, c, e, os);
    if c.phase.SendFile? {
      TlsSends(c, os);
      NextStep(|c.toClient| - |header|, |c'.toClient| - |c.toClient|);
    } else {
      HeaderInStep(Tls, file, size, header, c, os);
    }
  }

  lemma HeaderInStep(m: Mode, file: seq<char>, size: nat, header: seq<char>, c: Conn, os: Os)
    requires Inv(m, file, size, header, c) && !c.phase.SendFile? && Possible(m, file, c, os)
    ensures StepSendHeaders(c, os).conn.toClient <= header
    ensures StepSendHeaders(c, os).result == Proceed ==> InStep(header, StepSendHeaders(c, os).conn)
    ensures StepSendHeaders(c, os).result == RemoveError ==> StepSendHeaders(c, os).conn.toClient == c.toClient
  {
    hide Ring.Contents, Ring.Consumed, Ring.ReadRoom;
    ExposedIsPrefix(c.ring);
    assert c.ring.Exposed() == c.ring.Contents();
    if os.write.Wrote? {
      var n := os.write.n;
      assert c.toClient + c.ring.Exposed()[..n] <= header;
      if n == c.ring.ReadRoom() {
        assert c.ring.Exposed()[..n] == c.ring.Exposed();
      }
    }
  }

  /** What keeps a client from receiving more than the header announced. */
  predicate KeepsToAnnounced(m: Mode, file: seq<char>, size: nat) {
    m.Plain? || |file| <= size || (size > 0 && size % SIZE == 0)
  }

  /** No more was sent than announced, and of a file that has something to send there is still a part to come. */
  ghost predicate WithinAnnounced(m: Mode, file: seq<char>, size: nat, header: seq<char>, c: Conn) {
    && Inv(m, file, size, header, c)
    && |c.toClient| <= |header| + size
    && (m.Tls? ==> InStep(header, c) && (c.phase.SendFile? && size > 0 ==> c.bytesToSend > 0))
  }

  lemma CallWithinAnnounced(m: Mode, file: seq<char>, size: nat, header: seq<char>, c: Conn, e: Event, os: Os)
    requires WithinAnnounced(m, file, size, header, c) && KeepsToAnnounced(m, file, size)
    requires Callable(m, c, os) && Possible(m, file, c, os)
    ensures |Process(m, c, e, os).conn.toClient| <= |header| + size
    ensures Process(m, c, e, os).result == Proceed ==> WithinAnnounced(m, file, size, header, Process(m, c, e, os).conn)
  {
    hide Ring.Contents, Ring.Exposed, Ring.Written, Ring.Consumed, Ring.ReadRoom, Ring.WriteRoom, Ring.Wrapped, Ring.Ok,
         Possible, StepSendHeaders, StepSendFile, StepSendFileTls, Inv;
    CallKeepsInv(m, file, size, header, c, e, os);
    if !c.phase.SendFile? {
      HeaderWithinAnnounced(m, file, size, header, c, os);
    } else if m.Plain? {
      ClearWithinAnnounced(file, size, header, c, os);
    } else {
      TlsWithinAnnounced(file, size, header, c, e, os);
    }
  }

  lemma HeaderWithinAnnounced(m: Mode, file: seq<char>, size: nat, header: seq<char>, c: Conn, os: Os)
    requires WithinAnnounced(m, file, size, header, c) && !c.phase.SendFile? && Possible(m, file, c, os)
    ensures var o := StepSendHeaders(c, os);
            && |o.conn.toClient| <= |header| + size
            && (o.result == Proceed ==> WithinAnnounced(m, file, size, header, o.conn))
  {
    hide Ring.Contents, Ring.Exposed, Ring.Consumed, Ring.ReadRoom, Ring.Ok, Possible, StepSendHeaders;
    HeadersSent(m, file, size, header, c, os);
    HeaderInStep(m, file, size, header, c, os);
  }

  lemma ClearWithinAnnounced(file: seq<char>, size: nat, header: seq<char>, c: Conn, os: Os)
    requires WithinAnnounced(Plain, file, size, header, c) && c.phase.SendFile? && Possible(Plain, file, c, os)
    ensures var o := StepSendFile(c, os);
            && |o.conn.toClient| <= |header| + size
            && (o.result == Proceed ==> WithinAnnounced(Plain, file, size, header, o.conn))
  {
    hide Ring.Contents, Ring.Ok;
    FileSent(file, size, header, c, os);
  }

  lemma TlsWithinAnnounced(file: seq<char>, size: nat, header: seq<char>, c: Conn, e: Event, os: Os)
    requires WithinAnnounced(Tls, file, size, header, c) && KeepsToAnnounced(Tls, file, size)
    requires c.phase.SendFile? && Fits(c, os) && Possible(Tls, file, c, os)
    ensures var o := Process(Tls, c, e, os);
            && |o.conn.toClient| <= |header| + size
            && (o.result == Proceed ==> WithinAnnounced(Tls, file, size, header, o.conn))
  {
    hide Ring.Contents, Ring.Exposed, Ring.Written, Ring.Consumed, Ring.ReadRoom, Ring.WriteRoom, Ring.Wrapped, Ring.Ok,
         StepSendFileTls;
    var o := Process(Tls, c, e, os);
    CallKeepsInv(Tls, file, size, header, c, e, os);
    if o.result == Proceed {
      CallKeepsStep(file, size, header, c, e, os);
      ClientSeesPrefix(Tls, file, size, header, o.conn);
    }
    TlsSends(c, os);
    if size > 0 && size % SIZE == 0 {
      NoMultiplePassed(|c.toClient| - |header|, |o.conn.toClient| - |c.toClient|, size);
    }
  }

  lemma {:induction false} RunsKeepToAnnounced(m: Mode, file: seq<char>, size: nat, header: seq<char>, c: Conn,
                                               calls: seq<Call>)
    requires WithinAnnounced(m, file, size, header, c) && KeepsToAnnounced(m, file, size)
    requires PossibleRun(m, file, c, calls)
    ensures |Live(m, file, c, calls).conn.toClient| <= |header| + size
    decreases |calls|
  {
    hide Process, Inv, Possible, Registered, InStep;
    if calls != [] {
      CallWithinAnnounced(m, file, size, header, c, calls[0].event, calls[0].os);
      var l := AfterCall(Process(m, c, calls[0].event, calls[0].os));
      if l.Alive? {
        RunsKeepToAnnounced(m, file, size, header, l.conn, calls[1..]);
      }
    }
  }

  /** A possible run after which the client has got more than the header announced. */
  ghost predicate Exceeds(m: Mode, file: seq<char>, size: nat, header: seq<char>, c: Conn, calls: seq<Call>) {
    PossibleRun(m, file, c, calls) && |Live(m, file, c, calls).conn.toClient| > |header| + size
  }

  lemma ExceedsNext(m: Mode, file: seq<char>, size: nat, header: seq<char>, c: Conn, call: Call, rest: seq<Call>)
    requires Callable(m, c, call.os) && Registered(c, call.event) && Possible(m, file, c, call.os)
    requires AfterCall(Process(m, c, call.event, call.os)).Alive?
    requires Exceeds(m, file, size, header, AfterCall(Process(m, c, call.event, call.os)).conn, rest)
    ensures Exceeds(m, file, size, header, c, [call] + rest)
  {
    hide Process, Possible, Registered, Callable;
    assert ([call] + rest)[1..] == rest;
  }

  /** Byte by byte up to the last byte announced, which goes out together with the next one. */
  lemma {:induction false} Overrun(file: seq<char>, size: nat, header: seq<char>, c: Conn) returns (calls: seq<Call>)
    requires BodyPending(Tls, file, size, header, c) && InStep(header, c) && 0 <= c.bytesToSend
    requires size < |file| && (size == 0 || (size % SIZE != 0 && c.bytesToSend > 0))
    ensures Exceeds(Tls, file, size, header, c, calls)
    decreases c.bytesToSend
  {
    hide Process, Inv, Possible, NextBytes, InStep;
    var n := if c.bytesToSend == 1 then 2 else 1;
    PendingCounts(file, size, header, c);
    if c.bytesToSend == 1 {
      LastByteHasNeighbour(size, header, c);
    }
    RingBytesMove(file, size, header, c, n);
    var call := Call(Event(false, true), NextBytes(Tls, file, c, n));
    var c' := AfterCall(Process(Tls, c, call.event, call.os)).conn;
    var rest := [];
    if c.bytesToSend > 1 {
      CallKeepsStep(file, size, header, c, call.event, call.os);
      rest := Overrun(file, size, header, c');
    }
    ExceedsNext(Tls, file, size, header, c, call, rest);
    calls := [call] + rest;
  }

  lemma LastByteHasNeighbour(size: nat, header: seq<char>, c: Conn)
    requires InStep(header, c) && c.phase.SendFile? && |c.toClient| - |header| == size - 1 && size % SIZE != 0
    ensures c.ring.readHead + 2 <= SIZE
  {
    NextStep(size - 1, 1);
  }

  /** A client can receive more than its header announced if and only if the connection is TLS, the file has grown
      since it was opened, and its size then was zero or no multiple of the ring's: at a multiple the ring wraps, and
      what is sent before the wrap ends exactly with the last byte announced. */
  lemma OverrunExactly(m: Mode, file: seq<char>, size: nat, header: seq<char>, c: Conn)
    requires Inv(m, file, size, header, c) && c.phase.SendHeaders?
    ensures (exists calls :: Exceeds(m, file, size, header, c, calls)) <==> !KeepsToAnnounced(m, file, size)
  {
    hide Process, Inv, Possible, PossibleRun, Live, KeepsToAnnounced;
    HeaderSentInPart(m, file, size, header, c);
    if KeepsToAnnounced(m, file, size) {
      forall calls ensures !Exceeds(m, file, size, header, c, calls) {
        if PossibleRun(m, file, c, calls) {
          RunsKeepToAnnounced(m, file, size, header, c, calls);
        }
      }
    } else {
      WhenItGrows(m, file, size);
      var call := HeaderGoesOut(m, file, size, header, c);
      var rest := Overrun(file, size, header, AfterCall(Process(m, c, call.event, call.os)).conn);
      ExceedsNext(m, file, size, header, c, call, rest);
    }
  }

  lemma WhenItGrows(m: Mode, file: seq<char>, size: nat)
    requires !KeepsToAnnounced(m, file, size)
    ensures m == Tls && size < |file| && (size == 0 || size % SIZE != 0)
  {
  }
}
