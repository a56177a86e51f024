/** How a call of a file executor ends, exactly, and that every answer is given: which set-ups and which calls fail,
    when a connection is done, what a retry is, and a run that delivers the whole answer. */
module FileOutcomes {
  import opened ProcessResults
  import opened RingBuffer
  import opened FileModel
  import opened FileRuns

  // ---- Which answers drop a connection ----

  predicate WriteFails(os: Os) {
    os.write.WriteFailed? || (os.write.WantRead? && !os.modOk)
  }

  /** The TLS executor reads from the file if it is not at its end and the ring has room. */
  predicate ReadsFile(c: Conn)
    requires c.ring.Ok() && c.ring.Wrapped().Ok()
  {
    c.fileOpen && c.ring.Wrapped().WriteRoom() > 0
  }

  /** One of the answers that the call uses is a failure. */
  predicate Fails(m: Mode, c: Conn, os: Os)
    requires c.ring.Ok() && c.ring.Wrapped().Ok()
  {
    if !c.phase.SendFile? then WriteFails(os)
    else match m
      case Plain => os.file.EndOfFile? || os.file.Failed?
      case Tls =>
        || (ReadsFile(c) && (os.file.Blocked? || os.file.Failed?))
        || (WriteFails(os) && (c.ring.Contents() != [] || (ReadsFile(c) && os.file.Moved?)))
  }

  /** How a call ends: an error for exactly the failures; success for exactly the last byte of what was announced; what
      moves to the client clears the retry counter; and only a TLS write that has to read first changes what the
      client's descriptor is polled for. */
  ghost predicate EndsAs(m: Mode, size: nat, header: seq<char>, c: Conn, os: Os, fails: bool, o: Outcome) {
    && (o.result == RemoveError <==> fails)
    && (o.result == RemoveOk <==>
          && !fails && |o.conn.toClient| > |c.toClient|
          && if c.phase.SendFile? then |o.conn.toClient| == |header| + size
             else c.phase.SendOnlyHeaders? && o.conn.toClient == header)
    && (o.result == Proceed && |o.conn.toClient| > |c.toClient| ==> o.conn.retry == 0)
    && (o.result == Proceed && |o.conn.toClient| == |c.toClient| && (m.Plain? || !c.phase.SendFile?) ==>
          o.conn.retry == c.retry + 1)
    && (o.conn.interest == c.interest || (o.conn.interest == ForBoth && os.write.WantRead?))
    && (m.Tls? && o.result == Proceed && os.write.WantRead? ==>
          o.conn.interest == ForBoth || (c.phase.SendFile? && o.conn.ring.Ok() && o.conn.ring.ReadRoom() == 0))
    && |o.conn.toClient| >= |c.toClient|
  }

  lemma HeaderEnds(m: Mode, file: seq<char>, size: nat, header: seq<char>, c: Conn, os: Os)
    requires Inv(m, file, size, header, c) && !c.phase.SendFile? && Possible(m, file, c, os)
    ensures EndsAs(m, size, header, c, os, WriteFails(os), StepSendHeaders(c, os))
  {
    hide Ring.Contents, Ring.Exposed, Ring.Consumed, Ring.ReadRoom;
    ExposedIsPrefix(c.ring);
    assert c.ring.Exposed() == c.ring.Contents();
    assert |c.toClient + c.ring.Contents()| == |header|;
    if os.write.Wrote? && os.write.n == c.ring.ReadRoom() {
      assert c.ring.Exposed()[..os.write.n] == c.ring.Exposed();
    }
  }

  lemma ClearEnds(file: seq<char>, size: nat, header: seq<char>, c: Conn, os: Os)
    requires Inv(Plain, file, size, header, c) && c.phase.SendFile? && Possible(Plain, file, c, os)
    ensures EndsAs(Plain, size, header, c, os, os.file.EndOfFile? || os.file.Failed?, StepSendFile(c, os))
  {
    hide Ring.Contents;
  }

  lemma RingEnds(file: seq<char>, size: nat, header: seq<char>, c: Conn, moved: bool, os: Os)
    requires Inv(Tls, file, size, header, c) && c.phase.SendFile?
    requires os.write.Wrote? ==> 1 <= os.write.n <= c.ring.ReadRoom()
    requires c.fileOpen ==> c.ring.ReadRoom() > 0
    ensures EndsAs(Tls, size, header, c, os, WriteFails(os) && c.ring.Contents() != [], WriteRing(c, moved, os))
  {
    hide Ring.Contents, Ring.Exposed, Ring.Consumed, Ring.ReadRoom;
    ExposedIsPrefix(c.ring);
  }

  lemma TlsEnds(file: seq<char>, size: nat, header: seq<char>, c: Conn, os: Os)
    requires Inv(Tls, file, size, header, c) && c.phase.SendFile? && Possible(Tls, file, c, os)
    ensures Fits(c, os) && EndsAs(Tls, size, header, c, os, Fails(Tls, c, os), StepSendFileTls(c, os))
  {
    hide Ring.Contents, Ring.Exposed, Ring.Consumed, Ring.ReadRoom, Ring.Written, WriteRing, Inv;
    FitsHere(file, c, os);
    if ReadFile(c, os).FileRead? {
      var r := ReadFile(c, os);
      FileReadIn(file, size, header, c, os);
      ReadKeeps(c, os);
      RingEnds(file, size, header, r.conn, r.moved, os);
    }
  }

  lemma FitsHere(file: seq<char>, c: Conn, os: Os)
    requires c.ring.Ok() && c.phase.SendFile? && Possible(Tls, file, c, os)
    ensures Fits(c, os)
  {
  }

  lemma ReadKeeps(c: Conn, os: Os)
    requires Fits(c, os) && ReadFile(c, os).FileRead? && (os.file.Moved? ==> os.file.bytes != [])
    ensures var r := ReadFile(c, os).conn;
            && r.ring.Ok() && r.toClient == c.toClient && r.interest == c.interest && r.phase == c.phase
            && (r.ring.Contents() != [] <==> c.ring.Contents() != [] || (ReadsFile(c) && os.file.Moved?))
  {
    hide Ring.Contents, Ring.Exposed, Ring.Written, Ring.WriteRoom;
    WrappedKeeps(c.ring);
    if os.file.Moved? {
      WrittenAppends(c.ring, os.file.bytes);
    }
  }

  /** For either executor, in every reachable state, for every event that is expected and any possible answers: the
      connection is dropped if and only if one of the answers used is a failure, so never because a socket would block
      or took a part, and it is done if and only if the last byte of what was announced went out. */
  lemma CallEndsExactly(m: Mode, file: seq<char>, size: nat, header: seq<char>, c: Conn, e: Event, os: Os)
    requires Inv(m, file, size, header, c) && Possible(m, file, c, os) && Expected(m, c, e)
    ensures c.ring.Wrapped().Ok() && (m.Tls? && c.phase.SendFile? ==> Fits(c, os))
    ensures EndsAs(m, size, header, c, os, Fails(m, c, os), Process(m, c, e, os))
  {
    hide EndsAs, StepSendHeaders, StepSendFile, StepSendFileTls, Ring.Contents, Ring.Exposed, Ring.ReadRoom;
    WrappedKeeps(c.ring);
    if !c.phase.SendFile? {
      HeaderEnds(m, file, size, header, c, os);
    } else if m.Plain? {
      ClearEnds(file, size, header, c, os);
    } else {
      TlsEnds(file, size, header, c, os);
    }
  }

  // ---- Every answer is given ----

  /** The client takes what is left of a header that is the whole answer. */
  lemma HeaderFinishes(m: Mode, file: seq<char>, size: nat, header: seq<char>, c: Conn) returns (calls: seq<Call>)
    requires Inv(m, file, size, header, c) && c.phase.SendOnlyHeaders?
    ensures Finishes(m, file, c, calls) && Live(m, file, c, calls).conn.toClient == header
  {
    hide Ring.Contents, Ring.Exposed, Ring.Consumed, Ring.Wrapped, Ring.WriteRoom, Ring.Written;
    WrappedKeeps(c.ring);
    ExposedIsPrefix(c.ring);
    var call := Call(Event(false, true), Os(Wrote(c.ring.ReadRoom()), Blocked, true));
    CallEndsExactly(m, file, size, header, c, call.event, call.os);
    CallKeepsInv(m, file, size, header, c, call.event, call.os);
    FinishesNow(m, file, c, call);
    calls := [call];
    RunsSendHeader(m, file, size, header, c, calls);
  }

  /** The set-up is refused for these reasons and no other: the file cannot be opened although it is there, its data
      cannot be read, the text does not fit the ring with its NUL, or the descriptor's registration is not changed. */
  predicate CannotAnswer(ring: Ring, open: OpenAnswer, statOk: bool, response: seq<char>, modOk: bool) {
    open.Refused? || (open.Opened? && !statOk) || |response| + 1 > |ring.store| || !modOk
  }

  predicate HasBody(open: OpenAnswer) {
    open.Opened? && !open.unmodified
  }

  /** Every request for a file is answered unless it cannot be. A missing file and an unmodified one are answered with
      the response: there is a run that delivers it whole. A modified one is answered with the response and the file: a
      run delivers both if and only if the file was not empty when it was opened and has not become shorter. */
  lemma AnsweredExactly(m: Mode, ring: Ring, open: OpenAnswer, statOk: bool, response: seq<char>, modOk: bool,
                        retry: nat, file: seq<char>)
    requires ring.Ok() && |ring.store| == SIZE && response != []
    ensures ring.Cleared().Ok()
    ensures var up := Up(ring, open, statOk, response, modOk, retry);
            && (up.NotStarted? <==> CannotAnswer(ring, open, statOk, response, modOk))
            && (up.Started? ==>
                  if HasBody(open) then
                    && ((exists calls :: Finishes(m, file, up.conn, calls)) <==> 0 < open.size <= |file|)
                    && (forall calls :: Finishes(m, file, up.conn, calls) ==>
                          Live(m, file, up.conn, calls).conn.toClient == response + file[..open.size])
                  else exists calls ::
                         Finishes(m, file, up.conn, calls) && Live(m, file, up.conn, calls).conn.toClient == response)
  {
    hide Inv, PossibleRun, Live, Ring.Contents;
    assert ring.Cleared().Ok() && ring.Cleared().WriteRoom() == |ring.store|;
    var up := Up(ring, open, statOk, response, modOk, retry);
    if up.Started? {
      UpInv(m, ring, open, statOk, response, modOk, retry, file);
      if HasBody(open) {
        ServedExactly(m, file, open.size, response, up.conn);
        forall calls | Finishes(m, file, up.conn, calls)
          ensures Live(m, file, up.conn, calls).conn.toClient == response + file[..open.size]
        {
          FinishedIsDelivered(m, file, open.size, response, up.conn, calls);
        }
      } else {
        var calls := HeaderFinishes(m, file, if open.Opened? then open.size else 0, response, up.conn);
      }
    }
  }

  lemma FinishedIsDelivered(m: Mode, file: seq<char>, size: nat, header: seq<char>, c: Conn, calls: seq<Call>)
    requires Inv(m, file, size, header, c) && c.phase.SendHeaders? && Finishes(m, file, c, calls)
    ensures size <= |file| && Live(m, file, c, calls).conn.toClient == header + file[..size]
  {
    hide Inv, Live, PossibleRun;
    RunsSendWholeFile(m, file, size, header, c, calls);
  }
}
