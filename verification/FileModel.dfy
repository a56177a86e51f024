/** Serving a file over a clear connection or a TLS one: what a process call does with the answers of
    the operating system and of the TLS library (src/executors/FileExecutor.cpp,
    src/executors/SslFileExecutor.cpp, src/utils/SslUtils.cpp). */
module FileModel {
  import opened CString
  import opened ProcessResults
  import opened RingBuffer

  datatype Mode = Plain | Tls

  datatype Phase = SendHeaders | SendOnlyHeaders | SendFile

  /** What the client's descriptor is registered for: reading while the request comes in, then writing;
      a TLS write that has to read first adds reading. */
  datatype Interest = ForReading | ForWriting | ForBoth

  /** The connection record; `toClient` is what the client was sent, `fromFile` what was read from the
      file into the ring. */
  datatype Conn = Conn(
    phase: Phase,
    interest: Interest,
    fileOpen: bool,
    ring: Ring,
    filePosition: nat,
    bytesToSend: int,
    retry: int,
    fromFile: seq<char>,
    toClient: seq<char>)

  /** write and SSL_write. Wanting to read is a TLS answer. */
  datatype WriteAnswer = Wrote(n: nat) | WantWrite | WantRead | WriteFailed

  /** sendfile, or read on the file. A result of zero bytes from sendfile is `Blocked` or `Failed`,
      whichever errno happens to say. */
  datatype FileAnswer = Moved(bytes: seq<char>) | EndOfFile | Blocked | Failed

  datatype Os = Os(write: WriteAnswer, file: FileAnswer, modOk: bool)

  datatype Event = Event(readable: bool, writable: bool)

  datatype Outcome = Outcome(result: ProcessResult, conn: Conn)

  function Again(c: Conn): Outcome {
    Outcome(Proceed, c.(retry := c.retry + 1))
  }

  // ---- Set-up ----

  datatype OpenAnswer = Opened(size: nat, unmodified: bool) | Missing | Refused

  /** The formatted response is stored with its terminating NUL, which is not part of what is sent. */
  function WithResponse(ring: Ring, response: seq<char>): Ring
    requires ring.Cleared().Ok() && |response| < ring.Cleared().WriteRoom()
  {
    ring.Cleared().Filled(response + [NUL]).Advanced(|response|)
  }

  datatype Started = NotStarted | Started(conn: Conn)

  /** `response` is the text that the formatter produces for this case. */
  function Up(ring: Ring, open: OpenAnswer, statOk: bool, response: seq<char>, modOk: bool, retry: int): Started
    requires ring.Cleared().Ok()
  {
    if open.Refused? || (open.Opened? && !statOk) || |response| >= ring.Cleared().WriteRoom() || !modOk then NotStarted
    else Started(Conn(
      if open.Opened? && !open.unmodified then SendHeaders else SendOnlyHeaders,
      ForWriting, open.Opened?, WithResponse(ring, response), 0,
      if open.Opened? then open.size else 0, retry, [], []))
  }

  // ---- Steps ----

  function StepSendHeaders(c: Conn, os: Os): Outcome
    requires c.ring.Ok()
  {
    var size := c.ring.ReadRoom();
    if size == 0 then Outcome(RemoveError, c)
    else match os.write
      case Wrote(n) =>
        var sent := c.(retry := 0, ring := c.ring.Consumed(n),
                       toClient := c.toClient + c.ring.Exposed()[..if n <= size then n else size]);
        if n != size then Outcome(Proceed, sent)
        else
          var done := sent.(ring := sent.ring.Cleared());
          if c.phase.SendOnlyHeaders? then Outcome(RemoveOk, done)
          else Outcome(Proceed, done.(phase := SendFile))
      case WantWrite => Again(c)
      case WantRead => if os.modOk then Again(c.(interest := ForBoth)) else Outcome(RemoveError, c)
      case WriteFailed => Outcome(RemoveError, c)
  }

  /** sendfile moves bytes from the file to the socket. */
  function StepSendFile(c: Conn, os: Os): Outcome {
    match os.file
    case Moved(bytes) =>
      var sent := c.(retry := 0, filePosition := c.filePosition + |bytes|, toClient := c.toClient + bytes,
                     bytesToSend := c.bytesToSend - |bytes|);
      Outcome(if sent.bytesToSend == 0 then RemoveOk else Proceed, sent)
    case Blocked => Again(c)
    case _ => Outcome(RemoveError, c)
  }

  /** The TLS variant: the state after the file was read, and whether anything was read. */
  datatype AfterFile = FileBroken | FileRead(conn: Conn, moved: bool)

  function ReadFile(c: Conn, os: Os): AfterFile
    requires c.ring.Ok() && c.ring.Wrapped().Ok()
    requires os.file.Moved? ==>
               |os.file.bytes| <= c.ring.Wrapped().WriteRoom() && c.ring.Written(os.file.bytes).Ok()
    ensures ReadFile(c, os).FileRead? ==> ReadFile(c, os).conn.ring.Ok()
  {
    if !c.fileOpen then FileRead(c, false)
    else
      var offered := c.(ring := c.ring.Wrapped());
      if offered.ring.WriteRoom() == 0 then FileRead(offered, false)
      else match os.file
        case Moved(bytes) => FileRead(c.(ring := c.ring.Written(bytes), fromFile := c.fromFile + bytes), true)
        case EndOfFile => FileRead(offered.(fileOpen := false), false)
        case _ => FileBroken
  }

  function WriteRing(c: Conn, moved: bool, os: Os): Outcome
    requires c.ring.Ok()
  {
    var size := c.ring.ReadRoom();
    var counted := c.(retry := if moved then 0 else c.retry + 1);
    if size == 0 then
      // "buffer.startRead failed"
      if c.fileOpen then Outcome(RemoveError, c) else Outcome(Proceed, counted)
    else match os.write
      case Wrote(n) =>
        var sent := c.(ring := c.ring.Consumed(n), bytesToSend := c.bytesToSend - n,
                       toClient := c.toClient + c.ring.Exposed()[..if n <= size then n else size]);
        if sent.bytesToSend == 0 then Outcome(RemoveOk, sent) else Outcome(Proceed, sent.(retry := 0))
      case WantWrite => Outcome(Proceed, c)
      case WantRead => if os.modOk then Outcome(Proceed, counted.(interest := ForBoth)) else Outcome(RemoveError, c)
      case WriteFailed => Outcome(RemoveError, c)
  }

  predicate Fits(c: Conn, os: Os) {
    && c.ring.Ok() && c.ring.Wrapped().Ok()
    && (os.file.Moved? ==> |os.file.bytes| <= c.ring.Wrapped().WriteRoom() && c.ring.Written(os.file.bytes).Ok())
  }

  function StepSendFileTls(c: Conn, os: Os): Outcome
    requires Fits(c, os)
  {
    var r := ReadFile(c, os);
    if r.FileBroken? then Outcome(RemoveError, c) else WriteRing(r.conn, r.moved, os)
  }

  predicate Expected(m: Mode, c: Conn, e: Event) {
    e.writable || (m.Tls? && c.phase.SendFile? && e.readable)
  }

  function Process(m: Mode, c: Conn, e: Event, os: Os): Outcome
    requires c.ring.Ok()
    requires m.Tls? && c.phase.SendFile? ==> Fits(c, os)
  {
    if !Expected(m, c, e) then Outcome(RemoveError, c)
    else if !c.phase.SendFile? then StepSendHeaders(c, os)
    else if m.Plain? then StepSendFile(c, os)
    else StepSendFileTls(c, os)
  }

  // ---- What can happen ----

  /** Only events the descriptor is registered for are delivered. */
  predicate Registered(c: Conn, e: Event) {
    (e.writable && !c.interest.ForReading?) || (e.readable && !c.interest.ForWriting?)
  }

  /** What may be answered: counts within what was asked for and the next bytes of the file. */
  predicate Possible(m: Mode, file: seq<char>, c: Conn, os: Os)
    requires c.ring.Ok()
  {
    && (m.Plain? ==> !os.write.WantRead?)
    && if c.phase.SendFile? then
         if m.Plain? then
           os.file.Moved? ==>
             && 1 <= |os.file.bytes| <= c.bytesToSend && c.filePosition + |os.file.bytes| <= |file|
             && os.file.bytes == file[c.filePosition..c.filePosition + |os.file.bytes|]
         else
           && Fits(c, os)
           && (os.file.Moved? ==> os.file.bytes != [] && c.fromFile + os.file.bytes <= file)
           && (os.file.EndOfFile? ==> c.fromFile == file)
           && (os.write.Wrote? && ReadFile(c, os).FileRead? ==>
                 1 <= os.write.n <= ReadFile(c, os).conn.ring.ReadRoom())
       else os.write.Wrote? ==> 1 <= os.write.n <= c.ring.ReadRoom()
  }
}
