/** The file executors as they are written: methods that update the connection record and its ring buffer
    in place. Each is proved against the state machine of FileModel. */
module FileExecutors {
  import opened CString
  import opened ProcessResults
  import opened RingBuffer
  import opened FileModel
  import FileRuns

  /** The part of the connection record that the file executors use. */
  class ExecutorData {
    var state: Phase
    var pollData0: Interest
    var fd1Open: bool
    var filePosition: nat
    var bytesToSend: int
    var retryCounter: int
    const buffer: TransferRingBuffer

    ghost var fromFile: seq<char>
    ghost var toClient: seq<char>

    ghost function Abs(): Conn
      reads this, buffer, buffer.buf
    {
      Conn(state, pollData0, fd1Open, buffer.Abs(), filePosition, bytesToSend, retryCounter, fromFile, toClient)
    }

    constructor (buffer: TransferRingBuffer)
      requires buffer.Valid()
      ensures this.buffer == buffer && pollData0 == ForReading && !fd1Open
      ensures filePosition == 0 && bytesToSend == 0 && retryCounter == 0 && fromFile == [] && toClient == []
    {
      this.buffer := buffer;
      state, pollData0, fd1Open := SendHeaders, ForReading, false;
      filePosition, bytesToSend, retryCounter := 0, 0, 0;
      fromFile, toClient := [], [];
    }

    method EditPollFd0(interest: Interest, epollOk: bool) returns (ok: bool)
      modifies this`pollData0
      ensures ok == epollOk && pollData0 == if ok then interest else old(pollData0)
    {
      if epollOk {
        pollData0 := interest;
      }
      return epollOk;
    }
  }

  /** The bytes a write took. */
  predicate WriteFits(a: WriteAnswer, size: nat) {
    a.Wrote? ==> 1 <= a.n <= size
  }

  /** writeFd0: what the caller sees is either the bytes taken or whether to try again. */
  method WriteFd0(data: ExecutorData, a: WriteAnswer, modOk: bool) returns (written: nat, again: bool)
    modifies data`pollData0
    ensures written == if a.Wrote? then a.n else 0
    ensures again == (a.WantWrite? || (a.WantRead? && modOk))
    ensures data.pollData0 == if a.WantRead? && modOk then ForBoth else old(data.pollData0)
  {
    match a {
      case Wrote(n) => return n, false;
      case WantWrite => return 0, true;
      case WantRead =>
        again := data.EditPollFd0(ForBoth, modOk);
        return 0, again;
      case WriteFailed => return 0, false;
    }
  }

  /** Put a formatted response into the emptied buffer. */
  method CreateResponse(data: ExecutorData, response: seq<char>) returns (ok: bool)
    requires data.buffer.Valid()
    modifies data.buffer`readHead, data.buffer`writeHead, data.buffer.buf
    ensures data.buffer.Valid() && data.buffer.buf == old(data.buffer.buf)
    ensures ok == (|response| < old(data.buffer.Abs()).Cleared().WriteRoom())
    ensures ok ==> data.buffer.Abs() == WithResponse(old(data.buffer.Abs()), response)
                   && data.buffer.Contents() == response
  {
    data.buffer.Clear();
    var started, at, size := data.buffer.StartWrite();
    if !started {
      return false;
    }
    if |response| >= size {
      return false;
    }
    data.buffer.Fill(response + [NUL]);
    assert data.buffer.buf[at..at + |response|] == response;
    data.buffer.EndWrite(|response|);
    return true;
  }

  /** Open the file that the request named and prepare the response. The texts of the three responses are
      the formatter's. */
  method Up(data: ExecutorData, open: OpenAnswer, statOk: bool, ok200: seq<char>, notModified: seq<char>,
            notFound: seq<char>, modOk: bool)
    returns (ok: bool)
    requires data.buffer.Valid()
    requires data.bytesToSend == 0 && data.filePosition == 0 && data.fromFile == [] && data.toClient == []
    modifies data, data.buffer`readHead, data.buffer`writeHead, data.buffer.buf
    ensures data.buffer.Valid()
    ensures var response := if open.Missing? then notFound
                            else if open.Opened? && open.unmodified then notModified else ok200;
            var s := FileModel.Up(old(data.buffer.Abs()), open, statOk, response, modOk, old(data.retryCounter));
            ok == s.Started? && (ok ==> data.Abs() == s.conn)
  {
    hide Ring.Ok, Ring.Contents;
    match open {
      case Refused => return false;
      case Missing =>
        data.fd1Open := false;
        ok := CreateResponse(data, notFound);
        if !ok {
          return false;
        }
        data.state := SendOnlyHeaders;
      case Opened(size, unmodified) =>
        data.fd1Open := true;
        if !statOk {
          return false;
        }
        data.bytesToSend := size;
        if unmodified {
          ok := CreateResponse(data, notModified);
          if !ok {
            return false;
          }
          data.state := SendOnlyHeaders;
        } else {
          ok := CreateResponse(data, ok200);
          if !ok {
            return false;
          }
          data.state := SendHeaders;
        }
    }
    ok := data.EditPollFd0(ForWriting, modOk);
  }

  method ProcessSendHeaders(data: ExecutorData, os: Os) returns (result: ProcessResult)
    requires data.buffer.Valid() && WriteFits(os.write, data.buffer.Abs().ReadRoom())
    modifies data, data.buffer`readHead, data.buffer`writeHead
    ensures data.buffer.Valid()
    ensures Outcome(result, data.Abs()) == StepSendHeaders(old(data.Abs()), os)
  {
    hide Ring.Contents, Ring.Ok, Ring.Consumed, Ring.Exposed, Ring.ReadRoom;
    ExposedIsPrefix(data.buffer.Abs());
    var ok, bytes := data.buffer.StartRead();
    if ok {
      var written, again := WriteFd0(data, os.write, os.modOk);
      if written == 0 {
        if !again {
          return RemoveError;
        }
        data.retryCounter := data.retryCounter + 1;
      } else {
        data.retryCounter := 0;
        data.toClient := data.toClient + bytes[..written];
        data.buffer.EndRead(written);
        if written == |bytes| {
          data.buffer.Clear();
          if data.state == SendOnlyHeaders {
            return RemoveOk;
          } else {
            data.state := SendFile;
          }
        }
      }
      return Proceed;
    } else {
      return RemoveError;
    }
  }

  /** Files over a clear connection. */
  class FileExecutor {

    constructor () {
    }

    method ProcessSendFile(data: ExecutorData, os: Os) returns (result: ProcessResult)
      modifies data
      ensures Outcome(result, data.Abs()) == StepSendFile(old(data.Abs()), os)
    {
      match os.file {
        case Blocked =>
          data.retryCounter := data.retryCounter + 1;
          return Proceed;
        case EndOfFile => return RemoveError;
        case Failed => return RemoveError;
        case Moved(bytes) =>
          data.filePosition := data.filePosition + |bytes|;
          data.toClient := data.toClient + bytes;
          data.retryCounter := 0;
          data.bytesToSend := data.bytesToSend - |bytes|;
          if data.bytesToSend == 0 {
            return RemoveOk;
          }
          return Proceed;
      }
    }

    method Process(data: ExecutorData, e: Event, os: Os) returns (result: ProcessResult)
      requires data.buffer.Valid()
      requires data.state != SendFile ==> WriteFits(os.write, data.buffer.Abs().ReadRoom())
      modifies data, data.buffer`readHead, data.buffer`writeHead
      ensures data.buffer.Valid()
      ensures Outcome(result, data.Abs()) == FileModel.Process(Plain, old(data.Abs()), e, os)
    {
      hide Ring.Ok, Ring.ReadRoom;
      if (data.state == SendHeaders || data.state == SendOnlyHeaders) && e.writable {
        result := ProcessSendHeaders(data, os);
      } else if data.state == SendFile && e.writable {
        result := ProcessSendFile(data, os);
      } else {
        return RemoveError;
      }
    }

    /** A call of the poll loop on a connection of which header and file are known: whatever is answered, the record
        keeps its invariant or everything announced has been sent. */
    method Serve(data: ExecutorData, e: Event, os: Os, ghost file: seq<char>, ghost size: nat, ghost header: seq<char>)
      returns (result: ProcessResult)
      requires FileRuns.Inv(Plain, file, size, header, data.Abs()) && Registered(data.Abs(), e)
      requires data.buffer.Valid() && Possible(Plain, file, data.Abs(), os)
      modifies data, data.buffer`readHead, data.buffer`writeHead
      ensures data.buffer.Valid()
      ensures result != RemoveError ==>
                FileRuns.GoodOutcome(Plain, file, size, header, old(data.state).SendFile?, Outcome(result, data.Abs()))
    {
      hide FileRuns.Inv, Registered, FileModel.Process, Ring.Ok;
      FileRuns.CallKeepsInv(Plain, file, size, header, data.Abs(), e, os);
      result := Process(data, e, os);
    }
  }

  /** Files over TLS: the bytes pass through the ring buffer. */
  class SslFileExecutor {

    constructor () {
    }

    /** The part of process_sendFile that reads the file; `broken` if the read failed. */
    method FillFromFile(data: ExecutorData, os: Os) returns (broken: bool, moved: bool)
      requires data.buffer.Valid() && Fits(data.Abs(), os)
      modifies data`fd1Open, data`fromFile, data.buffer`writeHead, data.buffer.buf
      ensures data.buffer.Valid() && data.buffer.buf == old(data.buffer.buf)
      ensures broken == ReadFile(old(data.Abs()), os).FileBroken?
      ensures !broken ==> FileRead(data.Abs(), moved) == ReadFile(old(data.Abs()), os)
      ensures broken ==> data.Abs() == old(data.Abs()).(ring := old(data.buffer.Abs()).Wrapped())
    {
      hide Ring.Contents, Ring.Exposed;
      if data.fd1Open {
        var ok, at, size := data.buffer.StartWrite();
        if ok {
          match os.file {
            case Moved(bytes) =>
              data.buffer.Fill(bytes);
              data.buffer.EndWrite(|bytes|);
              data.fromFile := data.fromFile + bytes;
              return false, true;
            case EndOfFile =>
              data.fd1Open := false;
            case _ =>
              return true, false;
          }
        }
      }
      return false, false;
    }

    method ProcessSendFile(data: ExecutorData, os: Os) returns (result: ProcessResult)
      requires data.buffer.Valid() && Fits(data.Abs(), os)
      requires ReadFile(data.Abs(), os).FileRead? ==> WriteFits(os.write, ReadFile(data.Abs(), os).conn.ring.ReadRoom())
      modifies data, data.buffer`readHead, data.buffer`writeHead, data.buffer.buf
      ensures data.buffer.Valid()
      ensures result == StepSendFileTls(old(data.Abs()), os).result
      ensures ReadFile(old(data.Abs()), os).FileRead? ==> data.Abs() == StepSendFileTls(old(data.Abs()), os).conn
    {
      hide Ring.Contents, Ring.Exposed, Ring.Ok, Ring.ReadRoom, Ring.Consumed, Ring.Written, ReadFile;
      var broken, operationOk := FillFromFile(data, os);
      if broken {
        return RemoveError;
      }
      result := SendFromRing(data, operationOk, os);
    }

    /** The part of process_sendFile that writes to the client. */
    method SendFromRing(data: ExecutorData, moved: bool, os: Os) returns (result: ProcessResult)
      requires data.buffer.Valid() && WriteFits(os.write, data.buffer.Abs().ReadRoom())
      modifies data, data.buffer`readHead, data.buffer`writeHead
      ensures data.buffer.Valid()
      ensures Outcome(result, data.Abs()) == WriteRing(old(data.Abs()), moved, os)
    {
      hide Ring.Contents, Ring.Ok, Ring.Consumed, Ring.Exposed, Ring.ReadRoom;
      var operationOk := moved;
      ExposedIsPrefix(data.buffer.Abs());
      var ok, bytes := data.buffer.StartRead();
      if ok {
        match os.write {
          case Wrote(n) =>
            operationOk := true;
            data.buffer.EndRead(n);
            data.toClient := data.toClient + bytes[..n];
            data.bytesToSend := data.bytesToSend - n;
            if data.bytesToSend == 0 {
              return RemoveOk;
            }
          case WantWrite =>
            return Proceed;
          case WantRead =>
            ok := data.EditPollFd0(ForBoth, os.modOk);
            if !ok {
              return RemoveError;
            }
          case WriteFailed =>
            return RemoveError;
        }
      } else {
        if data.fd1Open {
          return RemoveError;
        }
      }
      if operationOk {
        data.retryCounter := 0;
      } else {
        data.retryCounter := data.retryCounter + 1;
      }
      return Proceed;
    }

    method Process(data: ExecutorData, e: Event, os: Os) returns (result: ProcessResult)
      requires data.buffer.Valid()
      requires data.state != SendFile ==> WriteFits(os.write, data.buffer.Abs().ReadRoom())
      requires data.state == SendFile ==>
                 && Fits(data.Abs(), os)
                 && (ReadFile(data.Abs(), os).FileRead? ==>
                       WriteFits(os.write, ReadFile(data.Abs(), os).conn.ring.ReadRoom()))
      modifies data, data.buffer`readHead, data.buffer`writeHead, data.buffer.buf
      ensures data.buffer.Valid()
      ensures result == FileModel.Process(Tls, old(data.Abs()), e, os).result
      ensures result != RemoveError ==> data.Abs() == FileModel.Process(Tls, old(data.Abs()), e, os).conn
    {
      hide Ring.Ok, Ring.ReadRoom, Ring.Contents, Ring.Exposed, ReadFile, WriteRing, StepSendHeaders;
      if data.state == SendFile && (e.readable || e.writable) {
        result := ProcessSendFile(data, os);
      } else if (data.state == SendHeaders || data.state == SendOnlyHeaders) && e.writable {
        result := ProcessSendHeaders(data, os);
      } else {
        return RemoveError;
      }
    }

    /** A call of the poll loop on a connection of which header and file are known: whatever is answered, the record
        keeps its invariant or everything announced has been sent. */
    method Serve(data: ExecutorData, e: Event, os: Os, ghost file: seq<char>, ghost size: nat, ghost header: seq<char>)
      returns (result: ProcessResult)
      requires FileRuns.Inv(Tls, file, size, header, data.Abs()) && Registered(data.Abs(), e)
      requires data.buffer.Valid() && Possible(Tls, file, data.Abs(), os)
      modifies data, data.buffer`readHead, data.buffer`writeHead, data.buffer.buf
      ensures data.buffer.Valid()
      ensures result != RemoveError ==>
                FileRuns.GoodOutcome(Tls, file, size, header, old(data.state).SendFile?, Outcome(result, data.Abs()))
    {
      hide FileRuns.Inv, Registered, FileModel.Process, Ring.Ok;
      FileRuns.CallKeepsInv(Tls, file, size, header, data.Abs(), e, os);
      result := Process(data, e, os);
    }
  }
}
