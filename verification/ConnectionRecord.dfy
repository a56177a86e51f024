/** The whole connection record and its release (src/ExecutorData.h, src/ExecutorData.cpp). The other modules use
    parts of it; the poll loop's part is related to it here. */
module ConnectionRecord {
  import opened BlockStorage
  import PollBooks
  import RingBuffer

  datatype Stage =
    | Invalid | ReadRequest | SendHeaders | SendFile | ForwardRequest | ForwardResponse | ForwardResponseOnlyWrite
    | WaitConnect | SendOnlyHeaders | Finished | SslHandshake

  /** The fields of a record; `held` is the contents of its buffer. */
  datatype Record = Record(
    hasExecutor: bool,
    state: Stage,
    fd0: int,
    fd1: int,
    pollData0: Item?<PollBooks.PollRecord>,
    pollData1: Item?<PollBooks.PollRecord>,
    pipeReadFd: int,
    pipeWriteFd: int,
    bytesInPipe: int,
    bytesToSend: int,
    filePosition: int,
    held: seq<char>,
    port: int,
    ssl: bool,
    createTime: int,
    lastProcessTime: int,
    removeOnTimeout: bool,
    connectionType: int,
    retryCounter: int,
    hasProxy: bool)

  /** A record as it is constructed. */
  function Fresh(): Record {
    Record(false, Invalid, -1, -1, null, null, -1, -1, 0, 0, 0, [], 0, false, 0, 0, true, 0, 0, false)
  }

  /** What the release leaves in a descriptor field. */
  function DescriptorLeft(fd: int): int {
    if fd > 0 then -1 else fd
  }

  /** What the release leaves. It does not touch the port. */
  function DownOf(r: Record): Record {
    Fresh().(fd0 := DescriptorLeft(r.fd0), fd1 := DescriptorLeft(r.fd1), pipeReadFd := DescriptorLeft(r.pipeReadFd),
             pipeWriteFd := DescriptorLeft(r.pipeWriteFd), port := r.port)
  }

  function Opened(fd: int): seq<int> {
    if fd > 0 then [fd] else []
  }

  /** The descriptors that the release closes, in order. */
  function ClosedBy(r: Record): seq<int> {
    Opened(r.fd0) + Opened(r.fd1) + Opened(r.pipeReadFd) + Opened(r.pipeWriteFd)
  }

  /** A released record is as good as new, but for the port it listened on, if and only if no descriptor of it was
      standard input or garbage: the release takes 0 for a closed descriptor and leaves it. */
  lemma DownIsFreshExactly(r: Record)
    ensures DownOf(r) == Fresh().(port := r.port) <==>
              && PollBooks.FdOk(r.fd0) && PollBooks.FdOk(r.fd1)
              && PollBooks.FdOk(r.pipeReadFd) && PollBooks.FdOk(r.pipeWriteFd)
  {
    assert DownOf(r).fd0 == DescriptorLeft(r.fd0) && DownOf(r).fd1 == DescriptorLeft(r.fd1);
  }

  /** Releasing twice, as the loop and the destructor do, closes nothing twice and changes nothing more. */
  lemma DownTwice(r: Record)
    ensures DownOf(DownOf(r)) == DownOf(r) && ClosedBy(DownOf(r)) == []
  {
  }

  /** The part of the record that the poll loop's books keep. */
  function InBooks(r: Record): PollBooks.ExecRecord {
    PollBooks.ExecRecord(r.state != Invalid, r.fd0, r.fd1, r.pollData0, r.pollData1, r.createTime, r.lastProcessTime,
                         r.removeOnTimeout, r.retryCounter)
  }

  /** The release that the books know is this one, and of the descriptors only the pipe's are not theirs. */
  lemma BooksSeeTheRelease(r: Record)
    ensures InBooks(DownOf(r)) == PollBooks.Down(InBooks(r))
    ensures ClosedBy(r) == PollBooks.ClosedByDown(InBooks(r)) + (Opened(r.pipeReadFd) + Opened(r.pipeWriteFd))
    ensures InBooks(Fresh()) == PollBooks.FreshExec()
  {
  }

  class ExecutorData {
    var hasExecutor: bool
    var state: Stage
    var fd0: int
    var fd1: int
    var pollData0: Item?<PollBooks.PollRecord>
    var pollData1: Item?<PollBooks.PollRecord>
    var pipeReadFd: int
    var pipeWriteFd: int
    var bytesInPipe: int
    var bytesToSend: int
    var filePosition: int
    const buffer: RingBuffer.TransferRingBuffer
    var port: int
    var ssl: bool
    var createTime: int
    var lastProcessTime: int
    var removeOnTimeout: bool
    var connectionType: int
    var retryCounter: int
    var hasProxy: bool

    /** Every descriptor passed to close, in order. */
    ghost var closed: seq<int>

    function Abs(): Record
      requires buffer.Valid()
      reads this, buffer, buffer.buf
    {
      Record(hasExecutor, state, fd0, fd1, pollData0, pollData1, pipeReadFd, pipeWriteFd, bytesInPipe, bytesToSend,
             filePosition, buffer.Contents(), port, ssl, createTime, lastProcessTime, removeOnTimeout, connectionType,
             retryCounter, hasProxy)
    }

    constructor (size: nat)
      ensures buffer.Valid() && fresh(buffer) && fresh(buffer.buf) && Abs() == Fresh() && closed == []
    {
      hasExecutor, state, fd0, fd1, pollData0, pollData1 := false, Invalid, -1, -1, null, null;
      pipeReadFd, pipeWriteFd, bytesInPipe, bytesToSend, filePosition := -1, -1, 0, 0, 0;
      buffer := new RingBuffer.TransferRingBuffer(size);
      port, ssl, createTime, lastProcessTime, removeOnTimeout := 0, false, 0, 0, true;
      connectionType, retryCounter, hasProxy := 0, 0, false;
      closed := [];
    }

    /** `if(fd > 0) { close(fd); fd = -1; }` */
    method Close(fd: int) returns (left: int)
      modifies this`closed
      ensures closed == old(closed) + Opened(fd) && left == DescriptorLeft(fd)
    {
      if fd > 0 {
        closed := closed + [fd];
        return -1;
      }
      assert closed + [] == closed;
      return fd;
    }

    method CloseAll()
      modifies this`closed, this`fd0, this`fd1, this`pipeReadFd, this`pipeWriteFd, this`pollData0, this`pollData1
      ensures closed == old(closed) + (Opened(old(fd0)) + Opened(old(fd1))
                                       + Opened(old(pipeReadFd)) + Opened(old(pipeWriteFd)))
      ensures fd0 == DescriptorLeft(old(fd0)) && fd1 == DescriptorLeft(old(fd1))
      ensures pipeReadFd == DescriptorLeft(old(pipeReadFd)) && pipeWriteFd == DescriptorLeft(old(pipeWriteFd))
      ensures pollData0 == null && pollData1 == null
    {
      hide Opened, DescriptorLeft;
      fd0 := Close(fd0);
      fd1 := Close(fd1);
      pollData0 := null;
      pollData1 := null;
      pipeReadFd := Close(pipeReadFd);
      pipeWriteFd := Close(pipeWriteFd);
    }

    /** Close what is open and reset the record. */
    method Down()
      requires buffer.Valid()
      modifies this, buffer`readHead, buffer`writeHead
      ensures buffer.Valid() && Abs() == DownOf(old(Abs()))
      ensures closed == old(closed) + ClosedBy(old(Abs()))
    {
      hide RingBuffer.TransferRingBuffer.Contents, RingBuffer.TransferRingBuffer.Valid, Opened, DescriptorLeft;
      ssl := false;
      CloseAll();
      ResetCounters();
      buffer.Clear();
    }

    method ResetCounters()
      modifies this`bytesInPipe, this`state, this`hasExecutor, this`bytesToSend, this`filePosition, this`createTime,
               this`lastProcessTime, this`removeOnTimeout, this`connectionType, this`retryCounter, this`hasProxy
      ensures bytesInPipe == 0 && state == Invalid && !hasExecutor && bytesToSend == 0 && filePosition == 0
      ensures createTime == 0 && lastProcessTime == 0 && removeOnTimeout && connectionType == 0
      ensures retryCounter == 0 && !hasProxy
    {
      bytesInPipe := 0;
      state := Invalid;
      hasExecutor := false;
      bytesToSend := 0;
      filePosition := 0;
      createTime := 0;
      lastProcessTime := 0;
      removeOnTimeout := true;
      connectionType := 0;
      retryCounter := 0;
      hasProxy := false;
    }
  }
}
