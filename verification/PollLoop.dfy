/** The poll loop as the object it is (src/PollLoop.cpp): two block storages of records that point at
    each other, updated in place. Each method is proved against the books of PollBooks. */
module PollLoop {
  import opened BlockStorage
  import opened ExecutorLimits
  import opened PollBooks
  import opened ProcessResults
  import opened PollRuns
  import opened PollActivity
  import opened Sequences

  /** What a handler asks the loop for, before the kernel and the storages have answered. */
  datatype Ask =
    | AskAdd(fd: int, granted: bool)
    | AskEdit(fd: int, granted: bool)
    | AskRemove(fd: int, granted: bool)
    | AskClose(fd: int)
    | AskOpenFd1(fd: int)
    | AskSpawn(fd: int, granted: bool)

  /** A process call: what it asks for and how it ends. */
  datatype Script = Script(asks: seq<Ask>, result: ProcessResult, retryCounter: int)

  class Loop {
    const execDatas: BlockStorage<ExecRecord>
    const pollDatas: BlockStorage<PollRecord>
    const executorTimeoutMillis: int
    var numOfPollFds: int
    var lastCheckTimeoutMillis: int

    /** The kernel's side of epoll_ctl: which slot each registered descriptor reports to. */
    var interest: map<int, PollData>
    /** Every descriptor passed to close, in order. */
    ghost var closed: seq<int>

    ghost function Execs(): set<ExecutorData>
      reads execDatas
    {
      Elements(execDatas.used)
    }

    ghost function Polls(): set<PollData>
      reads pollDatas
    {
      Elements(pollDatas.used)
    }

    ghost function ExecMap(): map<ExecutorData, ExecRecord>
      reads execDatas, Execs()
    {
      map e | e in Execs() :: e.value
    }

    ghost function PollMap(): map<PollData, PollRecord>
      reads pollDatas, Polls()
    {
      map p | p in Polls() :: p.value
    }

    ghost function Abs(): Books
      reads this`interest, this`numOfPollFds, this`closed, execDatas, pollDatas, Execs(), Polls()
    {
      Books(execDatas.used, ExecMap(), pollDatas.used, pollDatas.free, PollMap(), interest, numOfPollFds, closed)
    }

    /** The storages are in order and what is not in use has been reset. */
    ghost predicate Sound()
      reads execDatas, pollDatas, execDatas.all, pollDatas.all
    {
      && execDatas.Valid() && pollDatas.Valid()
      && execDatas.initial == FreshExec() && pollDatas.initial == FreshPoll()
      && Execs() <= execDatas.all && Polls() <= pollDatas.all
      && execDatas.Reset() && pollDatas.Reset()
    }

    ghost predicate Valid()
      reads this, execDatas, pollDatas, execDatas.all, pollDatas.all
    {
      Sound() && BooksOk(Abs())
    }

    constructor (blockSize: nat, executorTimeoutMillis: int)
      requires blockSize >= 1
      ensures Valid() && Abs() == Books([], map[], [], [], map[], map[], 0, [])
      ensures fresh(execDatas) && fresh(pollDatas) && this.executorTimeoutMillis == executorTimeoutMillis
    {
      hide BooksOk, BlockStorage.Valid;
      execDatas := new BlockStorage<ExecRecord>(blockSize, FreshExec());
      pollDatas := new BlockStorage<PollRecord>(blockSize, FreshPoll());
      this.executorTimeoutMillis := executorTimeoutMillis;
      numOfPollFds, lastCheckTimeoutMillis := 0, 0;
      interest, closed := map[], [];
      EmptyBooksOk();
    }

    /** What the books say about one record and about the loop's own fields. */
    lemma AbsOf(e: ExecutorData)
      requires e in Execs()
      ensures e in Abs().execs && Abs().execs[e] == e.value
      ensures Abs().interest == interest && Abs().numOfPollFds == numOfPollFds && Abs().closed == closed
      ensures Abs().usedPolls == pollDatas.used && Abs().usedExecs == execDatas.used
    {
    }

    // ---- Single steps on the storages and the records ----

    /** The records in use stay what they were. */
    twostate lemma ExecsKept()
      requires execDatas.used == old(execDatas.used) && forall e <- Execs() :: e.value == old(e.value)
      ensures ExecMap() == old(ExecMap())
    {
      hide Elements;
    }

    twostate lemma PollsKept()
      requires pollDatas.used == old(pollDatas.used) && forall p <- Polls() :: p.value == old(p.value)
      ensures PollMap() == old(PollMap())
    {
      hide Elements;
    }

    twostate lemma ExecAdded(new e: ExecutorData)
      requires Execs() == old(Execs()) + {e} && forall x <- old(Execs()) :: x != e ==> x.value == old(x.value)
      ensures ExecMap() == old(ExecMap())[e := e.value]
    {
      hide Elements;
    }

    twostate lemma PollAdded(new p: PollData)
      requires Polls() == old(Polls()) + {p} && forall x <- old(Polls()) :: x != p ==> x.value == old(x.value)
      ensures PollMap() == old(PollMap())[p := p.value]
    {
      hide Elements;
    }

    method CountPolls(delta: int)
      modifies this`numOfPollFds
      ensures Abs() == old(Abs()).(numOfPollFds := old(Abs()).numOfPollFds + delta)
    {
      numOfPollFds := numOfPollFds + delta;
    }

    method AllocateExec() returns (e: ExecutorData)
      requires Sound()
      modifies execDatas, execDatas.all`next, execDatas.all`prev
      ensures Sound() && e in Execs() && e !in old(Execs()) && e in execDatas.all && e.value == FreshExec()
      ensures Abs() == old(Abs()).(usedExecs := [e] + old(Abs()).usedExecs,
                                   execs := old(Abs()).execs[e := FreshExec()])
      ensures old(execDatas.all) <= execDatas.all && fresh(execDatas.all - old(execDatas.all))
    {
      hide BlockStorage.Valid, BlockStorage.Reset, Elements, PollMap, ExecMap;
      execDatas.Partition();
      e := execDatas.Allocate();
      execDatas.Partition();
      assert pollDatas.Valid() && pollDatas.Reset();
      PollsKept();
      ExecAdded(e);
    }

    lemma PollKeys()
      ensures PollMap().Keys == Polls()
    {
    }

    /** The storage's part of an allocation. */
    method TakePoll() returns (p: PollData)
      requires Sound()
      modifies pollDatas, pollDatas.all`next, pollDatas.all`prev
      ensures Sound() && p in Polls() && p !in old(Polls()) && p in pollDatas.all && p.value == FreshPoll()
      ensures ExecMap() == old(ExecMap()) && PollMap() == old(PollMap())[p := FreshPoll()]
      ensures pollDatas.used == [p] + old(pollDatas.used)
      ensures if old(pollDatas.free) != [] then [p] + pollDatas.free == old(pollDatas.free)
              else Distinct(pollDatas.free) && Elements(pollDatas.free) !! old(Polls())
                   && p !in Elements(pollDatas.free)
      ensures old(pollDatas.all) <= pollDatas.all && fresh(pollDatas.all - old(pollDatas.all))
    {
      hide BlockStorage.Valid, BlockStorage.Reset, Elements, Distinct, ExecMap, PollMap;
      pollDatas.Partition();
      p := pollDatas.Allocate();
      pollDatas.Partition();
      assert execDatas.Valid() && execDatas.Reset();
      ExecsKept();
      PollAdded(p);
    }

    method AllocatePoll() returns (p: PollData, ghost block: seq<PollData>)
      requires Sound()
      modifies pollDatas, pollDatas.all`next, pollDatas.all`prev
      ensures Sound() && p in Polls() && p !in old(Polls()) && p in pollDatas.all && p.value == FreshPoll()
      ensures CanAllocate(old(Abs()), block) && p == FreeSlots(old(Abs()), block)[0]
      ensures Abs() == old(Abs()).(usedPolls := [p] + old(Abs()).usedPolls,
                                   freePolls := FreeSlots(old(Abs()), block)[1..],
                                   polls := old(Abs()).polls[p := FreshPoll()])
      ensures old(pollDatas.all) <= pollDatas.all && fresh(pollDatas.all - old(pollDatas.all))
    {
      hide Sound, Elements, Distinct, ExecMap, PollMap, CanAllocate, FreeSlots;
      PollKeys();
      ghost var b := Abs();
      p := TakePoll();
      block := [];
      if b.freePolls != [] {
        NextSlot(b);
      } else {
        block := [p] + pollDatas.free;
        FirstSlot(b, p, pollDatas.free);
      }
    }

    method FreeExec(e: ExecutorData)
      requires Sound() && e in Execs() && e.value == FreshExec()
      modifies execDatas, execDatas.all`next, execDatas.all`prev
      ensures Sound() && e in old(execDatas.used)
      ensures Abs() == old(Abs()).(usedExecs := Without(old(Abs()).usedExecs, e), execs := old(Abs()).execs - {e})
      ensures execDatas.all == old(execDatas.all)
    {
      hide BlockStorage.Valid, BlockStorage.Reset, Elements, PollMap;
      execDatas.Partition();
      execDatas.Free(e);
      execDatas.Partition();
    }

    method FreePoll(p: PollData)
      requires Sound() && p in Polls() && p.value == FreshPoll()
      modifies pollDatas, pollDatas.all`next, pollDatas.all`prev
      ensures Sound() && p in old(pollDatas.used)
      ensures Abs() == old(Abs()).(usedPolls := Without(old(Abs()).usedPolls, p),
                                   freePolls := [p] + old(Abs()).freePolls, polls := old(Abs()).polls - {p})
      ensures pollDatas.all == old(pollDatas.all)
    {
      hide BlockStorage.Valid, BlockStorage.Reset, Elements, ExecMap;
      pollDatas.Partition();
      pollDatas.Free(p);
      pollDatas.Partition();
    }

    method SetExec(e: ExecutorData, r: ExecRecord)
      requires Sound() && e in Execs()
      modifies e`value
      ensures Sound() && e.value == r
      ensures Abs() == old(Abs()).(execs := old(Abs()).execs[e := r])
    {
      hide BlockStorage.Valid, PollMap;
      e.value := r;
    }

    method SetPoll(p: PollData, q: PollRecord)
      requires Sound() && p in Polls()
      modifies p`value
      ensures Sound() && p.value == q
      ensures Abs() == old(Abs()).(polls := old(Abs()).polls[p := q])
    {
      hide BlockStorage.Valid, ExecMap;
      p.value := q;
    }

    // ---- The loop's operations ----

    method CreateExecutorData(curMillis: int) returns (e: ExecutorData)
      requires Valid()
      modifies execDatas, execDatas.all
      ensures Valid() && e !in old(Execs()) && e in Execs() && e in execDatas.all
      ensures e.value == FreshExec().(createTime := curMillis, lastProcessTime := curMillis)
      ensures Abs() == Create(old(Abs()), e, curMillis)
      ensures old(execDatas.all) <= execDatas.all && fresh(execDatas.all - old(execDatas.all))
    {
      hide BooksOk, Sound;
      ghost var b := Abs();
      BooksKeys(b);
      e := AllocateExec();
      SetExec(e, FreshExec().(createTime := curMillis, lastProcessTime := curMillis));
      CreateOk(b, e, curMillis);
      assert Abs() == Create(b, e, curMillis);
    }

    /** The kernel's decision on EPOLL_CTL_ADD: `granted` is its willingness; it always refuses a
        descriptor that is not open or is registered already. */
    predicate Accepts(fd: int, granted: bool)
      reads this
    {
      granted && fd > 0 && fd !in interest
    }

    /** The successful end of addPollFd. */
    method Register(e: ExecutorData, fd: int, p: PollData)
      requires Sound() && e in Execs() && p in Polls()
      requires fd == e.value.fd0 || fd == e.value.fd1
      modifies this`interest, p`value, e`value
      ensures Sound()
      ensures var b, r := old(Abs()), old(e.value);
              Abs() == b.(interest := b.interest[fd := p], polls := b.polls[p := PollRecord(fd, e)],
                          execs := b.execs[e := if fd == r.fd0 then r.(pollData0 := p) else r.(pollData1 := p)])
    {
      hide BooksOk, Sound;
      interest := interest[fd := p];
      SetPoll(p, PollRecord(fd, e));
      if fd == e.value.fd0 {
        SetExec(e, e.value.(pollData0 := p));
      } else if fd == e.value.fd1 {
        SetExec(e, e.value.(pollData1 := p));
      }
    }

    /** The part of addPollFd behind its checks. */
    method AddToSlot(e: ExecutorData, fd: int, granted: bool) returns (ok: bool, ghost block: seq<PollData>)
      requires Valid() && e in Execs() && AddAllowed(e.value, fd)
      modifies this`numOfPollFds, this`interest, pollDatas, pollDatas.all, e`value
      ensures CanAllocate(old(Abs()), block) && e in old(Abs()).execs && AddAllowed(old(Abs()).execs[e], fd)
      ensures Answer(ok, Abs()) == PollBooks.AddPollFd(old(Abs()), e, fd, old(Accepts(fd, granted)), block)
      ensures Valid()
      ensures old(pollDatas.all) <= pollDatas.all && fresh(pollDatas.all - old(pollDatas.all))
    {
      hide BooksOk, Sound, FreeSlots, CanAllocate, Abs, Polls, Execs, PollBooks.AddPollFd, Elements, Distinct;
      ghost var b := Abs();
      AbsOf(e);
      var p: PollData;
      p, block := AllocatePoll();
      AddOk(b, e, fd, Accepts(fd, granted), block);
      CountPolls(1);
      ok := Accepts(fd, granted);
      if ok {
        Register(e, fd, p);
        AddGranted(b, e, fd, p, block);
      } else {
        FreePoll(p);
        CountPolls(-1);
        AllocateThenFree(b, p, block);
        AddDenied(b, e, fd, block);
      }
    }

    method AddPollFd(e: ExecutorData, fd: int, granted: bool) returns (ok: bool, ghost block: seq<PollData>)
      requires Valid() && e in Execs()
      modifies this`numOfPollFds, this`interest, pollDatas, pollDatas.all, e`value
      ensures AddAllowed(old(e.value), fd) ==> CanAllocate(old(Abs()), block)
      ensures Answer(ok, Abs()) == PollBooks.AddPollFd(old(Abs()), e, fd, old(Accepts(fd, granted)), block)
      ensures Valid()
      ensures old(pollDatas.all) <= pollDatas.all && fresh(pollDatas.all - old(pollDatas.all))
    {
      hide BooksOk, Sound, CanAllocate, Abs, Polls, Execs, PollBooks.AddPollFd, Elements, Distinct;
      ghost var b := Abs();
      ok, block := false, [];
      AbsOf(e);
      if fd != e.value.fd0 && fd != e.value.fd1 {
        AddRefused(b, e, fd, Accepts(fd, granted), block);
      } else if fd == e.value.fd0 && e.value.pollData0 != null {
        AddRefused(b, e, fd, Accepts(fd, granted), block);
      } else if fd == e.value.fd1 && e.value.pollData1 != null {
        SameFds(b, e);
        AddRefused(b, e, fd, Accepts(fd, granted), block);
      } else {
        ok, block := AddToSlot(e, fd, granted);
      }
    }

    /** epoll_ctl only changes what the kernel reports; the books stay as they are. */
    method EditPollFd(e: ExecutorData, fd: int, granted: bool) returns (ok: bool)
      requires Valid() && e in Execs()
      ensures ok <==> SlotFor(e.value, fd) != null && granted
      ensures Abs() == old(Abs())
    {
      var p := null;
      if fd == e.value.fd0 {
        p := e.value.pollData0;
      } else if fd == e.value.fd1 {
        p := e.value.pollData1;
      }
      if p == null {
        return false;
      }
      return granted;
    }

    method RemovePollFd(e: ExecutorData, fd: int, granted: bool) returns (ok: bool)
      requires Valid() && e in Execs()
      modifies this`numOfPollFds, this`interest, pollDatas, pollDatas.all, e`value
      ensures Answer(ok, Abs()) == PollBooks.RemovePollFd(old(Abs()), e, fd, granted)
      ensures Valid() && pollDatas.all == old(pollDatas.all)
    {
      hide BooksOk, Sound, Abs, Polls, Execs, Without, PollBooks.RemovePollFd, Elements, Distinct;
      ghost var b := Abs();
      AbsOf(e);
      var slot := null;
      if fd == e.value.fd0 {
        slot := e.value.pollData0;
      } else if fd == e.value.fd1 {
        slot := e.value.pollData1;
      }
      if slot == null {
        RemoveRefused(b, e, fd, granted);
        return false;
      }
      RemovePollOk(b, e, fd, granted);
      if !granted {
        RemoveRefused(b, e, fd, granted);
        return false;
      }
      var p: PollData := slot;
      SlotInUse(e, p);
      Forget(fd);
      SetPoll(p, FreshPoll());
      FreePoll(p);
      CountPolls(-1);
      RemoveGranted(b, e, fd, p);
      ClearSlot(e, p);
      return true;
    }

    /** The record's pointer to a slot that is no longer in use. */
    method ClearSlot(e: ExecutorData, p: PollData)
      requires Sound() && e in Execs() && (p == e.value.pollData0 || p == e.value.pollData1)
      modifies e`value
      ensures Sound()
      ensures var r := old(e.value);
              Abs() == old(Abs()).(execs := old(Abs()).execs[e := if p == r.pollData0 then r.(pollData0 := null)
                                                                  else r.(pollData1 := null)])
    {
      hide Sound, Abs, Execs;
      if p == e.value.pollData0 {
        SetExec(e, e.value.(pollData0 := null));
      } else if p == e.value.pollData1 {
        SetExec(e, e.value.(pollData1 := null));
      }
    }

    /** The kernel's side of EPOLL_CTL_DEL. */
    method Forget(fd: int)
      modifies this`interest
      ensures Abs() == old(Abs()).(interest := old(Abs()).interest - {fd})
    {
      interest := interest - {fd};
    }

    lemma SlotInUse(e: ExecutorData, p: PollData)
      requires Valid() && e in Execs() && (e.value.pollData0 == p || e.value.pollData1 == p)
      ensures p in Polls() && p in pollDatas.all && p in pollDatas.used
    {
      AbsOf(e);
      assert ExecOk(Abs(), e);
      MemberElement(pollDatas.used, p);
    }

    method CloseDescriptor(fd: int)
      modifies this`closed
      ensures Abs() == old(Abs()).(closed := old(Abs()).closed + [fd])
    {
      closed := closed + [fd];
    }

    method CloseFd(e: ExecutorData, fd: int) returns (ok: bool)
      requires Valid() && e in Execs()
      modifies this`numOfPollFds, this`interest, this`closed, pollDatas, pollDatas.all, e`value
      ensures Answer(ok, Abs()) == PollBooks.CloseFd(old(Abs()), e, fd)
      ensures Valid() && pollDatas.all == old(pollDatas.all)
    {
      hide BooksOk, Sound, Abs, Polls, Execs, PollBooks.RemovePollFd;
      ghost var b := Abs();
      AbsOf(e);
      CloseOk(b, e, fd);
      if fd == e.value.fd0 {
        if e.value.pollData0 != null {
          var ignored := RemovePollFd(e, e.value.fd0, true);
          RemovedRecord(b, e, fd);
          AbsOf(e);
        }
        CloseDescriptor(e.value.fd0);
        SetExec(e, e.value.(fd0 := -1));
        return true;
      } else if fd == e.value.fd1 {
        if e.value.pollData1 != null {
          var ignored := RemovePollFd(e, e.value.fd1, true);
          RemovedRecord(b, e, fd);
          AbsOf(e);
        }
        CloseDescriptor(e.value.fd1);
        SetExec(e, e.value.(fd1 := -1));
        return true;
      }
      return false;
    }

    /** removePollFd for both descriptors of a connection that is going away. */
    method UnregisterBoth(e: ExecutorData)
      requires Valid() && e in Execs()
      modifies this`numOfPollFds, this`interest, pollDatas, pollDatas.all, e`value
      ensures Abs() == Unregister(old(Abs()), e)
      ensures Valid() && pollDatas.all == old(pollDatas.all)
      ensures e.value == old(e.value).(pollData0 := null, pollData1 := null)
    {
      hide BooksOk, Sound, Abs, Polls, Execs, PollBooks.RemovePollFd;
      ghost var b := Abs();
      AbsOf(e);
      UnregisterOk(b, e);
      if e.value.pollData0 != null {
        var ignored := RemovePollFd(e, e.value.fd0, true);
        OwnSlots(b, e);
        RemovedRecord(b, e, b.execs[e].fd0);
        AbsOf(e);
      }
      if e.value.pollData1 != null {
        var ignored := RemovePollFd(e, e.value.fd1, true);
      }
      AbsOf(e);
    }

    /** ExecutorData::down: closes the open descriptors and resets the record. */
    method DownExec(e: ExecutorData)
      requires Sound() && e in Execs()
      modifies this`closed, e`value
      ensures Sound() && e.value == Down(old(e.value))
      ensures Abs() == old(Abs()).(closed := old(Abs()).closed + ClosedByDown(old(e.value)),
                                   execs := old(Abs()).execs[e := Down(old(e.value))])
    {
      hide BooksOk, Sound, Abs, Polls, Execs;
      ghost var b, r := Abs(), e.value;
      AbsOf(e);
      if e.value.fd0 > 0 {
        CloseDescriptor(e.value.fd0);
        SetExec(e, e.value.(fd0 := -1));
      }
      ghost var r1 := e.value;
      assert Abs().execs == b.execs[e := r1];
      if e.value.fd1 > 0 {
        CloseDescriptor(e.value.fd1);
        SetExec(e, e.value.(fd1 := -1));
      }
      ghost var r2 := e.value;
      SetTwice(b.execs, e, r1, r2);
      SetTwice(b.execs, e, r2, Down(r));
      SetExec(e, FreshExec().(fd0 := e.value.fd0, fd1 := e.value.fd1));
    }

    method RemoveExecutorData(e: ExecutorData)
      requires Valid() && e in Execs()
      modifies this`numOfPollFds, this`interest, this`closed, pollDatas, pollDatas.all, execDatas, execDatas.all
      ensures Abs() == PollBooks.RemoveExecutorData(old(Abs()), e)
      ensures Valid() && pollDatas.all == old(pollDatas.all) && execDatas.all == old(execDatas.all)
    {
      hide BooksOk, Sound, Abs, Polls, Execs, Unregister, Without;
      ghost var b := Abs();
      AbsOf(e);
      RemoveExecutorOk(b, e);
      ExecInAll(e);
      DownIsFresh(b, e);
      UnregisterOk(b, e);
      UnregisterBoth(e);
      ghost var b1 := Abs();
      DownExec(e);
      FreeExec(e);
      assert b1.execs[e := FreshExec()] - {e} == b1.execs - {e};
      MemberElement(b1.usedExecs, e);
    }

    lemma ExecInAll(e: ExecutorData)
      requires Sound() && e in Execs()
      ensures e in execDatas.all
    {
    }

    /** createRequestExecutorInternal with the request executor's `up`. */
    method CreateRequestExecutor(fd: int, curMillis: int, granted: bool)
      returns (ok: bool, ghost e: ExecutorData, ghost block: seq<PollData>)
      requires Valid() && fd > 0
      modifies this`numOfPollFds, this`interest, this`closed, pollDatas, pollDatas.all, execDatas, execDatas.all
      ensures e !in old(Execs()) && CanAllocate(old(Abs()), block)
      ensures Answer(ok, Abs()) == PollBooks.CreateRequestExecutor(old(Abs()), e, fd, curMillis,
                                                                   old(Accepts(fd, granted)), block)
      ensures Valid()
      ensures old(pollDatas.all) <= pollDatas.all && fresh(pollDatas.all - old(pollDatas.all))
      ensures old(execDatas.all) <= execDatas.all && fresh(execDatas.all - old(execDatas.all))
    {
      hide BooksOk, Sound, Abs, Polls, Execs, PollBooks.AddPollFd, PollBooks.RemoveExecutorData;
      ghost var b, accepted := Abs(), Accepts(fd, granted);
      AbsKeys();
      var exec := CreateExecutorData(curMillis);
      e := exec;
      AbsOf(e);
      FdAssigned(Abs(), e, fd);
      SetExec(exec, exec.value.(fd0 := fd));
      AbsOf(e);
      assert Accepts(fd, granted) == accepted;
      ok, block := AddPollFd(exec, fd, granted);
      CreateRequestOk(b, e, fd, curMillis, accepted, block);
      AbsOf(e);
      if ok {
        SetExec(exec, exec.value.(live := true));
      } else {
        RemoveExecutorData(exec);
      }
    }

    lemma AbsKeys()
      ensures Abs().execs.Keys == Execs() && Abs().polls.Keys == Polls()
    {
    }

    /** The body of checkNewFd's loop: one descriptor taken from the queue. */
    method AcceptQueued(fd: int, curMillis: int, granted: bool)
      returns (ghost e: ExecutorData, ghost block: seq<PollData>)
      requires Valid() && fd > 0
      modifies this`numOfPollFds, this`interest, this`closed, pollDatas, pollDatas.all, execDatas, execDatas.all
      ensures e !in old(Execs()) && CanAllocate(old(Abs()), block)
      ensures Abs() == PollRuns.AcceptQueued(old(Abs()), e, fd, curMillis, old(Accepts(fd, granted)), block)
      ensures Valid()
      ensures closed == old(closed) + (if old(Accepts(fd, granted)) then [] else [fd, fd])
      ensures old(pollDatas.all) <= pollDatas.all && fresh(pollDatas.all - old(pollDatas.all))
      ensures old(execDatas.all) <= execDatas.all && fresh(execDatas.all - old(execDatas.all))
    {
      hide BooksOk, Sound, Abs, Polls, Execs, PollBooks.CreateRequestExecutor;
      ghost var b, accepted := Abs(), Accepts(fd, granted);
      AbsKeys();
      AbsFields();
      var ok: bool;
      ok, e, block := CreateRequestExecutor(fd, curMillis, granted);
      ClosedTwiceExactly(b, e, fd, curMillis, accepted, block);
      if !ok {
        ClosingKeepsBooks(Abs(), fd);
        CloseDescriptor(fd);
      }
      AbsFields();
    }

    /** checkNewFd: empty the queue. */
    method CheckNewFd(fds: seq<int>, curMillis: int, granted: seq<bool>) returns (ghost qs: seq<Queued>)
      requires Valid() && |granted| == |fds| && forall i :: 0 <= i < |fds| ==> fds[i] > 0
      modifies this`numOfPollFds, this`interest, this`closed, pollDatas, pollDatas.all, execDatas, execDatas.all
      ensures LegalQueue(old(Abs()), qs, curMillis) && Abs() == AcceptAll(old(Abs()), qs, curMillis)
      ensures |qs| == |fds| && forall i :: 0 <= i < |qs| ==> qs[i].fd == fds[i] && (qs[i].epollOk ==> granted[i])
      ensures Valid() && closed == old(closed) + FailedTwice(qs)
    {
      hide BooksOk, Sound, Abs, Polls, Execs, PollRuns.AcceptQueued, LegalQueue, AcceptAll, CanAllocate;
      ghost var b := Abs();
      AbsFields();
      qs := [];
      NothingQueued(b, curMillis);
      for i := 0 to |fds|
        invariant Valid() && LegalQueue(b, qs, curMillis) && Abs() == AcceptAll(b, qs, curMillis)
        invariant |qs| == i && forall k :: 0 <= k < i ==> qs[k].fd == fds[k] && (qs[k].epollOk ==> granted[k])
        invariant old(pollDatas.all) <= pollDatas.all && fresh(pollDatas.all - old(pollDatas.all))
        invariant old(execDatas.all) <= execDatas.all && fresh(execDatas.all - old(execDatas.all))
      {
        AbsKeys();
        AbsFields();
        ghost var accepted := Accepts(fds[i], granted[i]);
        ghost var e, block := AcceptQueued(fds[i], curMillis, granted[i]);
        ghost var q := Queued(e, fds[i], accepted, block);
        OneMoreQueued(b, qs, q, curMillis);
        qs := qs + [q];
      }
      AbsFields();
      QueueClosesExactly(b, qs, curMillis);
    }

    lemma AbsFields()
      ensures Abs().interest == interest && Abs().closed == closed
      ensures Abs().usedExecs == execDatas.used
    {
    }

    /** The first loop of checkTimeout. */
    method CollectExpired(curMillis: int) returns (removeExecDatas: seq<ExecutorData>)
      requires Valid()
      ensures Abs() == old(Abs())
      ensures Elements(Abs().usedExecs) <= Abs().execs.Keys
      ensures removeExecDatas == Victims(Abs(), Abs().usedExecs, curMillis, executorTimeoutMillis)
    {
      hide BooksOk, Elements, Victims, Sound, BlockStorage.Valid, Abs, Execs;
      ghost var b := Abs();
      BooksKeys(b);
      AbsKeys();
      AbsFields();
      StoragesValid();
      execDatas.NextInUse(0);
      removeExecDatas := [];
      var execData := execDatas.Head();
      ghost var i, used := 0, execDatas.used;
      assert used[0..] == used;
      while execData != null
        invariant i <= |used| && execData == At(used, i)
        invariant Elements(used[i..]) <= b.execs.Keys
        invariant removeExecDatas + Victims(b, used[i..], curMillis, executorTimeoutMillis)
                  == Victims(b, used, curMillis, executorTimeoutMillis)
        decreases |used| - i
      {
        var e: ExecutorData := execData;
        VictimsStep(i, curMillis);
        execDatas.NextInUse(i);
        if e.value.removeOnTimeout {
          if curMillis - e.value.lastProcessTime > executorTimeoutMillis
             || curMillis - e.value.createTime > MAX_TIME_TO_LIVE_MILLIS {
            Assoc(removeExecDatas, [e], Victims(b, used[i + 1..], curMillis, executorTimeoutMillis));
            removeExecDatas := removeExecDatas + [e];
          }
        }
        execData := execDatas.Next(e);
        i := i + 1;
      }
      NoVictims(b, used[i..], curMillis, executorTimeoutMillis);
    }

    lemma StoragesValid()
      requires Sound()
      ensures execDatas.Valid() && pollDatas.Valid()
    {
    }

    lemma VictimsStep(i: nat, curMillis: int)
      requires Valid() && i < |execDatas.used| && Elements(execDatas.used[i..]) <= Execs()
      ensures Elements(execDatas.used[i + 1..]) <= Execs()
      ensures Victims(Abs(), execDatas.used[i..], curMillis, executorTimeoutMillis)
              == (if Expired(execDatas.used[i].value, curMillis, executorTimeoutMillis) then [execDatas.used[i]]
                  else [])
                 + Victims(Abs(), execDatas.used[i + 1..], curMillis, executorTimeoutMillis)
    {
      var rest := execDatas.used[i..];
      assert rest[0] == execDatas.used[i] && rest[1..] == execDatas.used[i + 1..];
      assert rest[0] in Elements(rest);
      assert Elements(rest[1..]) <= Elements(rest);
      AbsOf(rest[0]);
    }

    method CheckTimeout(curMillis: int)
      requires Valid()
      modifies this`numOfPollFds, this`interest, this`closed, this`lastCheckTimeoutMillis
      modifies pollDatas, pollDatas.all, execDatas, execDatas.all
      ensures Elements(old(Abs()).usedExecs) <= old(Abs()).execs.Keys
      ensures Abs() == PollRuns.CheckTimeout(old(Abs()), curMillis, executorTimeoutMillis)
      ensures Valid() && lastCheckTimeoutMillis == curMillis
    {
      hide BooksOk, Sound, Abs, Polls, Execs, PollBooks.RemoveExecutorData, Victims;
      ghost var b := Abs();
      var removeExecDatas := CollectExpired(curMillis);
      UsedAreDistinct(b);
      VictimsAre(b, b.usedExecs, curMillis, executorTimeoutMillis);
      ghost var vs := removeExecDatas;
      assert vs[0..] == vs;
      for i := 0 to |removeExecDatas|
        invariant Valid()
        invariant RemoveAll(Abs(), vs[i..]) == RemoveAll(b, vs)
        invariant Elements(vs[i..]) <= Abs().execs.Keys && Distinct(vs[i..])
        invariant pollDatas.all == old(pollDatas.all) && execDatas.all == old(execDatas.all)
      {
        var e := removeExecDatas[i];
        AbsKeys();
        FirstOf(vs[i..]);
        RemoveExecutorOk(Abs(), e);
        assert vs[i..][1..] == vs[i + 1..];
        RemoveExecutorData(e);
      }
      assert vs[|vs|..] == [];
      assert RemoveAll(Abs(), []) == Abs();
      NoteSweep(curMillis);
    }

    method NoteSweep(curMillis: int)
      modifies this`lastCheckTimeoutMillis
      ensures lastCheckTimeoutMillis == curMillis && Abs() == old(Abs())
    {
      lastCheckTimeoutMillis := curMillis;
    }

    // ---- One batch of events ----

    /** One request of a handler, with the answers the kernel and the storages gave to it. */
    method Perform(e: ExecutorData, ask: Ask, curMillis: int) returns (ghost op: LoopOp)
      requires Valid() && e in Execs()
      modifies this`numOfPollFds, this`interest, this`closed, pollDatas, pollDatas.all, execDatas, execDatas.all
      ensures LegalOp(old(Abs()), e, op) && Abs() == Do(old(Abs()), e, op)
      ensures Valid() && e in Execs()
      ensures old(pollDatas.all) <= pollDatas.all && fresh(pollDatas.all - old(pollDatas.all))
      ensures old(execDatas.all) <= execDatas.all && fresh(execDatas.all - old(execDatas.all))
    {
      hide BooksOk, Sound, Abs, Polls, Execs, PollBooks.AddPollFd, PollBooks.RemovePollFd, PollBooks.CloseFd,
           PollBooks.CreateRequestExecutor, CanAllocate, AddAllowed, Elements, Distinct, FreshExec;
      ghost var b := Abs();
      AbsOf(e);
      AbsKeys();
      ExecInAll(e);
      op := Edit;
      var ok: bool;
      match ask {
        case AskAdd(fd, granted) =>
          ghost var accepted := Accepts(fd, granted);
          ghost var block;
          ok, block := AddPollFd(e, fd, granted);
          op := PollRuns.Add(fd, accepted, block);
        case AskEdit(fd, granted) =>
          ok := EditPollFd(e, fd, granted);
        case AskRemove(fd, granted) =>
          op := PollRuns.Remove(fd, granted);
          ok := RemovePollFd(e, fd, granted);
        case AskClose(fd) =>
          op := PollRuns.Close(fd);
          ok := CloseFd(e, fd);
        case AskOpenFd1(fd) =>
          if e.value.pollData1 == null && fd > 0 && fd != e.value.fd0 {
            op := PollRuns.OpenFd1(fd);
            SetExec(e, e.value.(fd1 := fd));
          }
        case AskSpawn(fd, granted) =>
          if fd > 0 {
            ghost var accepted := Accepts(fd, granted);
            ghost var e2, block;
            ok, e2, block := CreateRequestExecutor(fd, curMillis, granted);
            op := Spawn(e2, fd, curMillis, accepted, block);
          }
      }
      DoOk(b, e, op);
      AbsKeys();
    }

    /** Everything a process call asks for. */
    method PerformAll(e: ExecutorData, asks: seq<Ask>, curMillis: int) returns (ghost ops: seq<LoopOp>)
      requires Valid() && e in Execs()
      modifies this`numOfPollFds, this`interest, this`closed, pollDatas, pollDatas.all, execDatas, execDatas.all
      ensures e in old(Abs()).execs && LegalOps(old(Abs()), e, ops) && Abs() == DoAll(old(Abs()), e, ops)
      ensures Valid() && e in Execs()
      ensures old(pollDatas.all) <= pollDatas.all && fresh(pollDatas.all - old(pollDatas.all))
      ensures old(execDatas.all) <= execDatas.all && fresh(execDatas.all - old(execDatas.all))
    {
      hide BooksOk, Sound, Abs, Polls, Execs, Do, LegalOp;
      ghost var b := Abs();
      AbsKeys();
      ops := [];
      for i := 0 to |asks|
        invariant Valid() && e in Execs()
        invariant LegalOps(b, e, ops) && Abs() == DoAll(b, e, ops)
        invariant old(pollDatas.all) <= pollDatas.all && fresh(pollDatas.all - old(pollDatas.all))
        invariant old(execDatas.all) <= execDatas.all && fresh(execDatas.all - old(execDatas.all))
      {
        AbsKeys();
        ghost var op := Perform(e, asks[i], curMillis);
        OneMoreOp(b, e, ops, op);
        ops := ops + [op];
      }
    }

    /** What the loop does with the result of a process call; true on a shutdown. */
    method Conclude(e: ExecutorData, script: Script, ghost ops: seq<LoopOp>, curMillis: int) returns (stopped: bool)
      requires Valid() && e in Execs()
      modifies this`numOfPollFds, this`interest, this`closed, pollDatas, pollDatas.all, execDatas, execDatas.all
      ensures Abs() == AfterProcess(old(Abs()), e, Handler(ops, script.result, script.retryCounter), curMillis)
      ensures Valid() && (stopped <==> script.result == Shutdown)
      ensures pollDatas.all == old(pollDatas.all) && execDatas.all == old(execDatas.all)
    {
      hide BooksOk, Sound, Abs, Polls, Execs, PollBooks.RemoveExecutorData;
      ghost var b := Abs();
      AbsKeys();
      AbsOf(e);
      ExecInAll(e);
      AfterProcessOk(b, e, Handler(ops, script.result, script.retryCounter), curMillis);
      if script.result == RemoveOk {
        RemoveExecutorData(e);
      } else if script.result == RemoveError {
        RemoveExecutorData(e);
      } else if script.result == Shutdown {
        return true;
      } else {
        if script.retryCounter > MAX_RETRY_COUNTER {
          RemoveExecutorData(e);
        } else {
          SetExec(e, e.value.(lastProcessTime := curMillis, retryCounter := script.retryCounter));
        }
      }
      return false;
    }

    /** The body of the loop over the events. */
    method DispatchEvent(ev: Event, script: Script, curMillis: int)
      returns (stopped: bool, ghost h: Handler, ghost log: seq<Entry>)
      requires Valid() && ev.slot in pollDatas.all
      modifies this`numOfPollFds, this`interest, this`closed, pollDatas, pollDatas.all, execDatas, execDatas.all
      ensures LegalHandler(old(Abs()), ev, h)
      ensures var one := DispatchOne(old(Abs()), ev, h, curMillis);
              Abs() == one.books && stopped == one.stopped && log == one.log
      ensures Valid()
      ensures old(pollDatas.all) <= pollDatas.all && fresh(pollDatas.all - old(pollDatas.all))
      ensures old(execDatas.all) <= execDatas.all && fresh(execDatas.all - old(execDatas.all))
    {
      hide BooksOk, Sound, Abs, Polls, Execs, AfterProcess, DoAll, LegalOps, PollBooks.RemoveExecutorData;
      h := Handler([], script.result, script.retryCounter);
      stopped, log := false, [];
      SlotContents(ev.slot);
      var owner := ev.slot.value.execData;
      if owner == null {
        return;
      }
      var e: ExecutorData := owner;
      if e.value.live {
        log := [Entry(ev.slot, e, ev.slot.value.fd, e in Execs())];
        if ev.hangup && ev.slot.value.fd == e.value.fd0 {
          RemoveExecutorData(e);
        } else {
          ghost var ops := PerformAll(e, script.asks, curMillis);
          h := Handler(ops, script.result, script.retryCounter);
          stopped := Conclude(e, script, ops, curMillis);
        }
      }
    }

    /** A pointer to a slot: in use with the books' record, or freed and reset. */
    lemma SlotContents(p: PollData)
      requires Valid() && p in pollDatas.all
      ensures p.value.execData == Owner(Abs(), p)
      ensures p.value.execData != null ==>
                && p in Abs().polls && Abs().polls[p] == p.value
                && p.value.execData in Execs() && p.value.execData in Abs().execs
                && Abs().execs[p.value.execData] == p.value.execData.value
    {
      if p in Polls() {
        assert PollOk(Abs(), p);
      }
    }

    /** The loop over one batch, for slots that were in the storage when the batch was taken. */
    method RunBatch(events: seq<Event>, scripts: seq<Script>, curMillis: int)
      returns (stopped: bool, ghost n: nat, ghost hs: seq<Handler>, ghost log: seq<Entry>)
      requires Valid() && |scripts| == |events|
      requires forall i :: 0 <= i < |events| ==> events[i].slot in pollDatas.all
      modifies this`numOfPollFds, this`interest, this`closed, pollDatas, pollDatas.all, execDatas, execDatas.all
      ensures n <= |events| && (!stopped ==> n == |events|)
      ensures LegalBatch(old(Abs()), events[..n], hs, curMillis)
      ensures var d := Dispatch(old(Abs()), events[..n], hs, curMillis);
              Abs() == d.books && stopped == d.stopped && log == d.log
      ensures Valid()
      ensures old(pollDatas.all) <= pollDatas.all && fresh(pollDatas.all - old(pollDatas.all))
      ensures old(execDatas.all) <= execDatas.all && fresh(execDatas.all - old(execDatas.all))
    {
      hide BooksOk, Sound, Abs, Polls, Execs, DispatchOne, LegalHandler, LegalBatch, Dispatch;
      ghost var b := Abs();
      stopped, hs, n, log := false, [], 0, [];
      NothingDispatched(b, curMillis);
      for i := 0 to |events|
        invariant Valid() && n == i && !stopped
        invariant LegalBatch(b, events[..i], hs, curMillis)
        invariant var d := Dispatch(b, events[..i], hs, curMillis); Abs() == d.books && !d.stopped && log == d.log
        invariant old(pollDatas.all) <= pollDatas.all && fresh(pollDatas.all - old(pollDatas.all))
        invariant old(execDatas.all) <= execDatas.all && fresh(execDatas.all - old(execDatas.all))
      {
        ghost var h, dispatched;
        stopped, h, dispatched := DispatchEvent(events[i], scripts[i], curMillis);
        OneMoreEvent(b, events[..i], hs, events[i], h, curMillis);
        assert events[..i] + [events[i]] == events[..i + 1];
        hs, n, log := hs + [h], i + 1, log + dispatched;
        if stopped {
          return;
        }
      }
      assert events[..|events|] == events;
    }

    /** One round of the loop: a batch, and the sweep if it is due. */
    method RunRound(events: seq<Event>, scripts: seq<Script>, curMillis: int)
      returns (stopped: bool, ghost n: nat, ghost hs: seq<Handler>)
      requires Valid() && |scripts| == |events|
      requires forall i :: 0 <= i < |events| ==> events[i].slot in pollDatas.all
      modifies this`numOfPollFds, this`interest, this`closed, this`lastCheckTimeoutMillis
      modifies pollDatas, pollDatas.all, execDatas, execDatas.all
      ensures n <= |events| && (!stopped ==> n == |events|)
      ensures BooksOk(old(Abs())) && LegalBatch(old(Abs()), events[..n], hs, curMillis)
      ensures Server(Abs(), lastCheckTimeoutMillis)
              == AfterRound(Server(old(Abs()), old(lastCheckTimeoutMillis)), Round(events[..n], hs, curMillis),
                            executorTimeoutMillis)
      ensures Valid()
    {
      hide BooksOk, Sound, Abs, Polls, Execs, LegalBatch, Dispatch, PollRuns.CheckTimeout, Elements;
      ghost var log;
      stopped, n, hs, log := RunBatch(events, scripts, curMillis);
      if !stopped && curMillis - lastCheckTimeoutMillis >= executorTimeoutMillis {
        CheckTimeout(curMillis);
      }
    }
  }

  lemma EmptyBooksOk()
    ensures BooksOk(Books([], map[], [], [], map[], map[], 0, []))
  {
  }

  lemma NoVictims(b: Books, es: seq<ExecutorData>, curMillis: int, timeoutMillis: int)
    requires es == [] && Elements(es) <= b.execs.Keys
    ensures Victims(b, es, curMillis, timeoutMillis) == []
  {
  }

  lemma FirstOf<T>(s: seq<T>)
    requires s != [] && Distinct(s)
    ensures s[0] in Elements(s) && Distinct(s[1..]) && Elements(s[1..]) == Elements(s) - {s[0]}
  {
    TailOfDistinct(s);
  }

  lemma SameFds(b: Books, e: ExecutorData)
    requires BooksOk(b) && e in b.execs
    ensures b.execs[e].fd0 == b.execs[e].fd1 ==> b.execs[e].pollData0 == null && b.execs[e].pollData1 == null
  {
    assert ExecOk(b, e);
  }

  lemma AddRefused(b: Books, e: ExecutorData, fd: int, epollOk: bool, block: seq<PollData>)
    requires e in b.execs && !AddAllowed(b.execs[e], fd)
    ensures PollBooks.AddPollFd(b, e, fd, epollOk, block) == Answer(false, b)
  {
  }

  lemma AddDenied(b: Books, e: ExecutorData, fd: int, block: seq<PollData>)
    requires e in b.execs && AddAllowed(b.execs[e], fd) && CanAllocate(b, block)
    ensures PollBooks.AddPollFd(b, e, fd, false, block) == Answer(false, b.(freePolls := FreeSlots(b, block)))
  {
    hide CanAllocate;
  }

  /** Allocating, counting and registering a slot, one after the other. */
  lemma AddGranted(b: Books, e: ExecutorData, fd: int, p: PollData, block: seq<PollData>)
    requires e in b.execs && AddAllowed(b.execs[e], fd) && CanAllocate(b, block) && p == FreeSlots(b, block)[0]
    ensures var b1 := b.(usedPolls := [p] + b.usedPolls, freePolls := FreeSlots(b, block)[1..],
                         polls := b.polls[p := FreshPoll()], numOfPollFds := b.numOfPollFds + 1);
            var r := b.execs[e];
            PollBooks.AddPollFd(b, e, fd, true, block)
            == Answer(true, b1.(interest := b.interest[fd := p], polls := b1.polls[p := PollRecord(fd, e)],
                                execs := b.execs[e := if fd == r.fd0 then r.(pollData0 := p) else r.(pollData1 := p)]))
  {
    hide CanAllocate, FreeSlots;
    assert b.polls[p := FreshPoll()][p := PollRecord(fd, e)] == b.polls[p := PollRecord(fd, e)];
  }

  lemma RemoveRefused(b: Books, e: ExecutorData, fd: int, epollOk: bool)
    requires e in b.execs && (SlotFor(b.execs[e], fd) == null || !epollOk)
    ensures PollBooks.RemovePollFd(b, e, fd, epollOk) == Answer(false, b)
  {
  }

  /** Forgetting, freeing and counting a slot, one after the other. */
  lemma RemoveGranted(b: Books, e: ExecutorData, fd: int, p: PollData)
    requires e in b.execs && SlotFor(b.execs[e], fd) == p && p in b.usedPolls
    ensures var b1 := b.(interest := b.interest - {fd}, usedPolls := Without(b.usedPolls, p),
                         freePolls := [p] + b.freePolls, polls := b.polls[p := FreshPoll()] - {p});
            var r := b.execs[e];
            PollBooks.RemovePollFd(b, e, fd, true)
            == Answer(true, b1.(numOfPollFds := b.numOfPollFds - 1,
                                execs := b.execs[e := if p == r.pollData0 then r.(pollData0 := null)
                                                      else r.(pollData1 := null)]))
  {
    hide Without;
    assert b.polls[p := FreshPoll()] - {p} == b.polls - {p};
  }

  lemma NextSlot(b: Books)
    requires b.freePolls != []
    ensures CanAllocate(b, []) && FreeSlots(b, []) == b.freePolls
  {
  }

  /** The first slot of a new block. */
  lemma FirstSlot(b: Books, p: PollData, rest: seq<PollData>)
    requires b.freePolls == [] && p !in b.polls && Elements(rest) !! b.polls.Keys && p !in Elements(rest)
    requires Distinct(rest)
    ensures CanAllocate(b, [p] + rest) && FreeSlots(b, [p] + rest) == [p] + rest
    ensures ([p] + rest)[0] == p && ([p] + rest)[1..] == rest
  {
    DistinctCons(p, rest);
    ElementsCons(p, rest);
  }

  lemma SetTwice<K, V>(m: map<K, V>, k: K, v: V, w: V)
    ensures m[k := v][k := w] == m[k := w]
  {
  }

  /** Allocating a slot and freeing it again leaves the books as they were, but for a new block. */
  lemma AllocateThenFree(b: Books, p: PollData, block: seq<PollData>)
    requires BooksOk(b) && CanAllocate(b, block) && p == FreeSlots(b, block)[0]
    ensures Without([p] + b.usedPolls, p) == b.usedPolls
    ensures [p] + FreeSlots(b, block)[1..] == FreeSlots(b, block)
    ensures b.polls[p := FreshPoll()] - {p} == b.polls
  {
    WithoutHead(p, b.usedPolls);
    FirstElement(FreeSlots(b, block));
    assert p !in b.polls;
  }

  lemma BooksKeys(b: Books)
    requires BooksOk(b)
    ensures b.execs.Keys == Elements(b.usedExecs) && b.polls.Keys == Elements(b.usedPolls)
    ensures Distinct(b.freePolls) && Elements(b.freePolls) !! b.polls.Keys
  {
  }
}
