/** The poll loop's books as values (src/PollLoop.cpp): which connection records and poll slots are in
    use, how they point at each other, and what every loop operation does to them. */
module PollBooks {
  import opened BlockStorage

  /** What a poll slot and a connection record hold for the loop (PollData, ExecutorData). */
  datatype PollRecord = PollRecord(fd: int, execData: Item?<ExecRecord>)

  datatype ExecRecord = ExecRecord(
    live: bool,
    fd0: int,
    fd1: int,
    pollData0: Item?<PollRecord>,
    pollData1: Item?<PollRecord>,
    createTime: int,
    lastProcessTime: int,
    removeOnTimeout: bool,
    retryCounter: int)

  type PollData = Item<PollRecord>
  type ExecutorData = Item<ExecRecord>

  function FreshPoll(): PollRecord {
    PollRecord(-1, null)
  }

  function FreshExec(): ExecRecord {
    ExecRecord(false, -1, -1, null, null, 0, 0, true, 0)
  }

  /** What ExecutorData::down leaves: open descriptors closed, everything else reset. */
  function Down(r: ExecRecord): ExecRecord {
    FreshExec().(fd0 := if r.fd0 > 0 then -1 else r.fd0, fd1 := if r.fd1 > 0 then -1 else r.fd1)
  }

  function ClosedByDown(r: ExecRecord): seq<int> {
    (if r.fd0 > 0 then [r.fd0] else []) + (if r.fd1 > 0 then [r.fd1] else [])
  }

  /** The books: the two used lists (newest first), the free slots (next first), the records behind
      the used pointers, the kernel's interest table, the counter, and the descriptors closed so far. */
  datatype Books = Books(
    usedExecs: seq<ExecutorData>,
    execs: map<ExecutorData, ExecRecord>,
    usedPolls: seq<PollData>,
    freePolls: seq<PollData>,
    polls: map<PollData, PollRecord>,
    interest: map<int, PollData>,
    numOfPollFds: int,
    closed: seq<int>)

  /** A record's registered slots are in use and point back at it. */
  predicate ExecOk(b: Books, e: ExecutorData)
    requires e in b.execs
  {
    var r := b.execs[e];
    && (r.pollData0 != null ==>
          r.fd0 > 0 && r.pollData0 in b.polls && b.polls[r.pollData0] == PollRecord(r.fd0, e))
    && (r.pollData1 != null ==>
          r.fd1 > 0 && r.pollData1 in b.polls && b.polls[r.pollData1] == PollRecord(r.fd1, e))
    && FdOk(r.fd0) && FdOk(r.fd1)
    && (r.fd0 == r.fd1 ==> r.fd0 == -1 && r.pollData0 == null && r.pollData1 == null)
  }

  /** Closed, or a descriptor other than standard input. */
  predicate FdOk(fd: int) {
    fd == -1 || fd > 0
  }

  /** A slot in use belongs to a record in use that points back at it, and the kernel reports to it. */
  predicate PollOk(b: Books, p: PollData)
    requires p in b.polls
  {
    var q := b.polls[p];
    && q.execData != null && q.execData in b.execs
    && (b.execs[q.execData].pollData0 == p || b.execs[q.execData].pollData1 == p)
    && q.fd in b.interest && b.interest[q.fd] == p
  }

  ghost predicate ListsOk(b: Books) {
    && Distinct(b.usedExecs) && b.execs.Keys == Elements(b.usedExecs)
    && Distinct(b.usedPolls) && b.polls.Keys == Elements(b.usedPolls)
    && Distinct(b.freePolls) && Elements(b.freePolls) !! b.polls.Keys
    && b.numOfPollFds == |b.usedPolls|
  }

  ghost predicate LinksOk(b: Books) {
    && (forall e <- b.execs :: ExecOk(b, e))
    && (forall p <- b.polls :: PollOk(b, p))
    && (forall fd <- b.interest :: b.interest[fd] in b.polls && b.polls[b.interest[fd]].fd == fd)
  }

  /** The registration bijection and its counter. */
  ghost predicate BooksOk(b: Books) {
    ListsOk(b) && LinksOk(b)
  }

  // ---- The loop's operations ----

  /** createExecutorData: records that are not in use have been reset. */
  function Create(b: Books, e: ExecutorData, curMillis: int): Books {
    b.(usedExecs := [e] + b.usedExecs,
       execs := b.execs[e := FreshExec().(createTime := curMillis, lastProcessTime := curMillis)])
  }

  /** The slot the storage hands out: the newest free one, or the first of a new block. */
  predicate CanAllocate(b: Books, block: seq<PollData>) {
    if b.freePolls != [] then block == []
    else block != [] && Distinct(block) && Elements(block) !! b.polls.Keys
  }

  function FreeSlots(b: Books, block: seq<PollData>): (f: seq<PollData>)
    requires CanAllocate(b, block)
    ensures f != []
  {
    if b.freePolls != [] then b.freePolls else block
  }

  predicate AddAllowed(r: ExecRecord, fd: int) {
    (fd == r.fd0 && r.pollData0 == null) || (fd == r.fd1 && fd != r.fd0 && r.pollData1 == null)
  }

  datatype Answer = Answer(ok: bool, books: Books)

  function AddPollFd(b: Books, e: ExecutorData, fd: int, epollOk: bool, block: seq<PollData>): Answer
    requires e in b.execs && (AddAllowed(b.execs[e], fd) ==> CanAllocate(b, block))
  {
    var r := b.execs[e];
    if !AddAllowed(r, fd) then Answer(false, b)
    else if !epollOk then Answer(false, b.(freePolls := FreeSlots(b, block)))
    else
      var slots := FreeSlots(b, block);
      var p := slots[0];
      Answer(true, b.(
        usedPolls := [p] + b.usedPolls,
        freePolls := slots[1..],
        polls := b.polls[p := PollRecord(fd, e)],
        interest := b.interest[fd := p],
        numOfPollFds := b.numOfPollFds + 1,
        execs := b.execs[e := if fd == r.fd0 then r.(pollData0 := p) else r.(pollData1 := p)]))
  }

  function SlotFor(r: ExecRecord, fd: int): Item?<PollRecord> {
    if fd == r.fd0 then r.pollData0 else if fd == r.fd1 then r.pollData1 else null
  }

  function RemovePollFd(b: Books, e: ExecutorData, fd: int, epollOk: bool): Answer
    requires e in b.execs
  {
    var r := b.execs[e];
    var slot := SlotFor(r, fd);
    if slot == null || slot !in b.usedPolls || !epollOk then Answer(false, b)
    else
      var p: PollData := slot;
      Answer(true, b.(
        usedPolls := Without(b.usedPolls, p),
        freePolls := [p] + b.freePolls,
        polls := b.polls - {p},
        interest := b.interest - {fd},
        numOfPollFds := b.numOfPollFds - 1,
        execs := b.execs[e := if p == r.pollData0 then r.(pollData0 := null) else r.(pollData1 := null)]))
  }

  function CloseFd(b: Books, e: ExecutorData, fd: int): Answer
    requires e in b.execs
  {
    var r := b.execs[e];
    if fd != r.fd0 && fd != r.fd1 then Answer(false, b)
    else
      var b1 := if SlotFor(r, fd) != null then RemovePollFd(b, e, fd, true).books else b;
      if e !in b1.execs then Answer(false, b1)
      else
        var r1 := b1.execs[e];
        Answer(true, b1.(closed := b1.closed + [fd],
                         execs := b1.execs[e := if fd == r.fd0 then r1.(fd0 := -1) else r1.(fd1 := -1)]))
  }

  function Unregister(b: Books, e: ExecutorData): Books
    requires e in b.execs
  {
    var b1 := if b.execs[e].pollData0 != null then RemovePollFd(b, e, b.execs[e].fd0, true).books else b;
    if e in b1.execs && b1.execs[e].pollData1 != null
    then RemovePollFd(b1, e, b1.execs[e].fd1, true).books else b1
  }

  function RemoveExecutorData(b: Books, e: ExecutorData): Books
    requires e in b.execs
  {
    var b1 := Unregister(b, e);
    if e !in b1.usedExecs then b1
    else b1.(usedExecs := Without(b1.usedExecs, e), execs := b1.execs - {e},
             closed := b1.closed + ClosedByDown(b.execs[e]))
  }

  // ---- Each operation keeps the books ----

  lemma CreateOk(b: Books, e: ExecutorData, curMillis: int)
    requires BooksOk(b) && e !in b.execs
    ensures BooksOk(Create(b, e, curMillis))
  {
    ElementsCons(e, b.usedExecs);
    DistinctCons(e, b.usedExecs);
  }

  lemma AddedPollsOk(b: Books, e: ExecutorData, fd: int, block: seq<PollData>)
    requires LinksOk(b) && e in b.execs && CanAllocate(b, block) && AddAllowed(b.execs[e], fd)
    requires fd > 0 && fd !in b.interest && FreeSlots(b, block)[0] !in b.polls
    ensures var b1 := AddPollFd(b, e, fd, true, block).books;
            && (forall p <- b1.polls :: PollOk(b1, p))
            && (forall x <- b1.interest :: b1.interest[x] in b1.polls && b1.polls[b1.interest[x]].fd == x)
  {
    hide Distinct, Elements, CanAllocate, FreeSlots, ExecOk;
    var b1 := AddPollFd(b, e, fd, true, block).books;
    forall p <- b1.polls ensures PollOk(b1, p) {
      if p in b.polls {
        assert PollOk(b, p);
      }
    }
  }

  lemma AddedExecsOk(b: Books, e: ExecutorData, fd: int, block: seq<PollData>)
    requires LinksOk(b) && e in b.execs && CanAllocate(b, block) && AddAllowed(b.execs[e], fd)
    requires fd > 0 && fd !in b.interest && FreeSlots(b, block)[0] !in b.polls
    ensures var b1 := AddPollFd(b, e, fd, true, block).books;
            forall x <- b1.execs :: ExecOk(b1, x)
  {
    hide Distinct, Elements, CanAllocate, FreeSlots, PollOk;
    var b1 := AddPollFd(b, e, fd, true, block).books;
    forall x <- b1.execs ensures ExecOk(b1, x) {
      assert ExecOk(b, x);
    }
  }

  lemma AddLinksOk(b: Books, e: ExecutorData, fd: int, block: seq<PollData>)
    requires LinksOk(b) && e in b.execs && CanAllocate(b, block) && AddAllowed(b.execs[e], fd)
    requires fd > 0 && fd !in b.interest && FreeSlots(b, block)[0] !in b.polls
    ensures LinksOk(AddPollFd(b, e, fd, true, block).books)
  {
    hide Distinct, Elements, CanAllocate, FreeSlots, AddPollFd, ExecOk, PollOk;
    AddedPollsOk(b, e, fd, block);
    AddedExecsOk(b, e, fd, block);
  }

  lemma AddOk(b: Books, e: ExecutorData, fd: int, epollOk: bool, block: seq<PollData>)
    requires BooksOk(b) && e in b.execs && (AddAllowed(b.execs[e], fd) ==> CanAllocate(b, block))
    requires epollOk ==> fd > 0 && fd !in b.interest
    ensures BooksOk(AddPollFd(b, e, fd, epollOk, block).books)
  {
    hide Distinct, Elements, ExecOk, PollOk;
    if AddAllowed(b.execs[e], fd) && epollOk {
      var slots := FreeSlots(b, block);
      var p := slots[0];
      TailOfDistinct(slots);
      FirstElement(slots);
      ElementsCons(p, b.usedPolls);
      DistinctCons(p, b.usedPolls);
      AddLinksOk(b, e, fd, block);
    } else if AddAllowed(b.execs[e], fd) {
      FreeSlotsDoNotMatter(b, FreeSlots(b, block));
    }
  }

  lemma FreeSlotsDoNotMatter(b: Books, slots: seq<PollData>)
    requires LinksOk(b)
    ensures LinksOk(b.(freePolls := slots))
  {
    var b1 := b.(freePolls := slots);
    forall p <- b1.polls ensures PollOk(b1, p) {
      assert PollOk(b, p);
    }
    forall x <- b1.execs ensures ExecOk(b1, x) {
      assert ExecOk(b, x);
    }
  }

  lemma FirstElement<T>(s: seq<T>)
    requires s != []
    ensures s[0] in Elements(s)
  {
  }

  lemma MemberElement<T>(s: seq<T>, x: T)
    ensures x in s <==> x in Elements(s)
  {
  }

  lemma RemoveLinksOk(b: Books, e: ExecutorData, fd: int)
    requires LinksOk(b) && e in b.execs && SlotFor(b.execs[e], fd) != null && SlotFor(b.execs[e], fd) in b.usedPolls
    ensures LinksOk(RemovePollFd(b, e, fd, true).books)
  {
    hide Without;
    var b1 := RemovePollFd(b, e, fd, true).books;
    forall p <- b1.polls ensures PollOk(b1, p) {
      assert PollOk(b, p);
    }
    forall x <- b1.execs ensures ExecOk(b1, x) {
      assert ExecOk(b, x);
    }
  }

  lemma RemovePollOk(b: Books, e: ExecutorData, fd: int, epollOk: bool)
    requires BooksOk(b) && e in b.execs
    ensures BooksOk(RemovePollFd(b, e, fd, epollOk).books)
    ensures e in RemovePollFd(b, e, fd, epollOk).books.execs
    ensures RemovePollFd(b, e, fd, epollOk).ok <==> SlotFor(b.execs[e], fd) != null && epollOk
  {
    hide Distinct, Elements, Without, PollOk;
    var slot := SlotFor(b.execs[e], fd);
    if slot != null {
      var p: PollData := slot;
      assert ExecOk(b, e);
      MemberElement(b.usedPolls, p);
      if epollOk {
        WithoutElements(b.usedPolls, p);
        WithoutDistinct(b.usedPolls, p);
        ElementsCons(p, b.freePolls);
        DistinctCons(p, b.freePolls);
        RemoveLinksOk(b, e, fd);
      }
    }
  }

  lemma WithoutDistinct<T>(s: seq<T>, x: T)
    requires Distinct(s) && x in s
    ensures Distinct(Without(s, x))
  {
    var i: nat :| i < |s| && s[i] == x;
    WithoutSplits(s, i);
  }

  lemma CloseOk(b: Books, e: ExecutorData, fd: int)
    requires BooksOk(b) && e in b.execs
    ensures BooksOk(CloseFd(b, e, fd).books) && e in CloseFd(b, e, fd).books.execs
    ensures CloseFd(b, e, fd).ok <==> fd == b.execs[e].fd0 || fd == b.execs[e].fd1
  {
    hide Distinct, Elements, Without, RemovePollFd;
    var r := b.execs[e];
    if fd == r.fd0 || fd == r.fd1 {
      if SlotFor(r, fd) != null {
        RemovePollOk(b, e, fd, true);
        RemovedRecord(b, e, fd);
      }
      var b1 := if SlotFor(r, fd) != null then RemovePollFd(b, e, fd, true).books else b;
      ClosedKeepsOk(b1, e, fd);
    }
  }

  /** What closing a descriptor does: it is closed once, the record no longer has it nor a slot for it, the kernel no
      longer reports it if it was registered, and every other record stays as it was. */
  lemma CloseEffects(b: Books, e: ExecutorData, fd: int)
    requires BooksOk(b) && e in b.execs && (fd == b.execs[e].fd0 || fd == b.execs[e].fd1)
    ensures var r, b1 := b.execs[e], CloseFd(b, e, fd).books;
            && b1.closed == b.closed + [fd] && b1.usedExecs == b.usedExecs && b1.execs.Keys == b.execs.Keys
            && b1.execs[e] == (if fd == r.fd0 then r.(fd0 := -1, pollData0 := null)
                               else r.(fd1 := -1, pollData1 := null))
            && (forall x <- b.execs :: x != e ==> b1.execs[x] == b.execs[x])
            && (if SlotFor(r, fd) == null then b1.polls == b.polls && b1.interest == b.interest
                else b1.polls == b.polls - {SlotFor(r, fd)} && fd !in b1.interest)
  {
    hide BooksOk, RemovePollFd, Without;
    if SlotFor(b.execs[e], fd) != null {
      RemovePollOk(b, e, fd, true);
      RemovedRecord(b, e, fd);
    }
  }

  /** What a removal does to the record and to the descriptor's entry. */
  lemma RemovedRecord(b: Books, e: ExecutorData, fd: int)
    requires BooksOk(b) && e in b.execs && SlotFor(b.execs[e], fd) != null
    ensures var b1 := RemovePollFd(b, e, fd, true).books;
            && e in b1.execs && fd !in b1.interest
            && b1.execs.Keys == b.execs.Keys && b1.usedExecs == b.usedExecs && b1.closed == b.closed
            && b1.execs[e] == (if fd == b.execs[e].fd0 then b.execs[e].(pollData0 := null)
                               else b.execs[e].(pollData1 := null))
            && (forall x <- b.execs :: x != e ==> b1.execs[x] == b.execs[x])
            && b1.polls == b.polls - {SlotFor(b.execs[e], fd)}
  {
    hide Distinct, Without;
    MemberElement(b.usedPolls, SlotFor(b.execs[e], fd));
  }

  lemma ClosedKeepsOk(b: Books, e: ExecutorData, fd: int)
    requires BooksOk(b) && e in b.execs
    requires (fd == b.execs[e].fd0 && b.execs[e].pollData0 == null)
             || (fd == b.execs[e].fd1 && fd != b.execs[e].fd0 && b.execs[e].pollData1 == null)
    ensures var r := b.execs[e];
            BooksOk(b.(closed := b.closed + [fd],
                       execs := b.execs[e := if fd == r.fd0 then r.(fd0 := -1) else r.(fd1 := -1)]))
  {
    hide Distinct, Elements;
  }

  // ---- Removing a connection ----

  lemma OwnSlots(b: Books, e: ExecutorData)
    requires BooksOk(b) && e in b.execs
    ensures var r := b.execs[e];
            && (r.pollData0 != null ==> r.pollData0 in b.polls && b.polls[r.pollData0] == PollRecord(r.fd0, e))
            && (r.pollData1 != null ==> r.pollData1 in b.polls && b.polls[r.pollData1] == PollRecord(r.fd1, e))
            && (r.pollData0 != null || r.pollData1 != null ==> r.fd0 != r.fd1)
  {
    assert ExecOk(b, e);
  }

  lemma UnregisterOk(b: Books, e: ExecutorData)
    requires BooksOk(b) && e in b.execs
    ensures var b1 := Unregister(b, e);
            && BooksOk(b1) && b1.usedExecs == b.usedExecs && b1.execs.Keys == b.execs.Keys && b1.closed == b.closed
            && b1.execs[e] == b.execs[e].(pollData0 := null, pollData1 := null)
            && (forall x <- b.execs :: x != e ==> b1.execs[x] == b.execs[x])
            && (forall p <- b.polls :: p in b1.polls <==> b.polls[p].execData != e)
            && (forall p <- b1.polls :: p in b.polls && b1.polls[p] == b.polls[p])
  {
    hide RemovePollFd, ListsOk, ExecOk;
    var r := b.execs[e];
    OwnSlots(b, e);
    var b1 := if r.pollData0 != null then RemovePollFd(b, e, r.fd0, true).books else b;
    if r.pollData0 != null {
      RemovePollOk(b, e, r.fd0, true);
      RemovedRecord(b, e, r.fd0);
    }
    if r.pollData1 != null {
      RemovePollOk(b1, e, r.fd1, true);
      RemovedRecord(b1, e, r.fd1);
    }
    forall p <- b.polls ensures b.polls[p].execData == e <==> p == r.pollData0 || p == r.pollData1 {
      assert PollOk(b, p);
    }
  }

  /** Removing a connection releases its record and both of its slots, closes its descriptors, leaves
      every other connection and registration as it was, and keeps the books. */
  lemma RemoveExecutorOk(b: Books, e: ExecutorData)
    requires BooksOk(b) && e in b.execs
    ensures var b1 := RemoveExecutorData(b, e);
            && BooksOk(b1)
            && e in b.usedExecs && b1.usedExecs == Without(b.usedExecs, e)
            && b1.execs == b.execs - {e}
            && (forall p <- b.polls :: p in b1.polls <==> b.polls[p].execData != e)
            && (forall p <- b1.polls :: p in b.polls && b1.polls[p] == b.polls[p])
            && b1.closed == b.closed + ClosedByDown(b.execs[e])
  {
    hide Distinct, Elements, Without, Unregister, LinksOk;
    UnregisterOk(b, e);
    var b1 := Unregister(b, e);
    MemberElement(b1.usedExecs, e);
    WithoutElements(b1.usedExecs, e);
    WithoutDistinct(b1.usedExecs, e);
    assert b1.execs - {e} == b.execs - {e};
    DroppedKeepsLinks(b1, e, Without(b1.usedExecs, e), b1.closed + ClosedByDown(b.execs[e]));
  }

  lemma DroppedKeepsLinks(b: Books, e: ExecutorData, usedExecs: seq<ExecutorData>, closed: seq<int>)
    requires LinksOk(b) && e in b.execs && b.execs[e].pollData0 == null && b.execs[e].pollData1 == null
    ensures LinksOk(b.(usedExecs := usedExecs, execs := b.execs - {e}, closed := closed))
  {
    var b1 := b.(usedExecs := usedExecs, execs := b.execs - {e}, closed := closed);
    forall p <- b1.polls ensures PollOk(b1, p) {
      assert PollOk(b, p);
    }
    forall x <- b1.execs ensures ExecOk(b1, x) {
      assert ExecOk(b, x);
    }
  }

  /** Whatever a connection was doing, its released record is as good as new. */
  lemma DownIsFresh(b: Books, e: ExecutorData)
    requires BooksOk(b) && e in b.execs
    ensures Down(b.execs[e]) == FreshExec()
  {
    assert ExecOk(b, e);
  }

  // ---- Accepting a connection ----

  /** createRequestExecutorInternal with the request executor's `up`. */
  function CreateRequestExecutor(b: Books, e: ExecutorData, fd: int, curMillis: int, epollOk: bool,
                                 block: seq<PollData>): Answer
    requires CanAllocate(b, block)
  {
    var b1 := Create(b, e, curMillis);
    var b2 := b1.(execs := b1.execs[e := b1.execs[e].(fd0 := fd)]);
    var a := AddPollFd(b2, e, fd, epollOk, block);
    if !a.ok then Answer(false, if e in a.books.execs then RemoveExecutorData(a.books, e) else a.books)
    else Answer(true, a.books.(execs := a.books.execs[e := a.books.execs[e].(live := true)]))
  }

  lemma CreateRequestOk(b: Books, e: ExecutorData, fd: int, curMillis: int, epollOk: bool, block: seq<PollData>)
    requires BooksOk(b) && e !in b.execs && CanAllocate(b, block) && fd > 0 && (epollOk ==> fd !in b.interest)
    ensures var a := CreateRequestExecutor(b, e, fd, curMillis, epollOk, block);
            && BooksOk(a.books) && (a.ok <==> epollOk)
            && (a.ok ==> a.books.usedExecs == [e] + b.usedExecs && a.books.closed == b.closed
                         && a.books.execs[e].live
                         && a.books.usedPolls == [FreeSlots(b, block)[0]] + b.usedPolls
                         && a.books.polls == b.polls[FreeSlots(b, block)[0] := PollRecord(fd, e)])
            && (!a.ok ==> a.books.usedExecs == b.usedExecs && a.books.closed == b.closed + [fd]
                          && a.books.polls == b.polls)
  {
    hide BooksOk, FreeSlots, CanAllocate, RemoveExecutorData;
    NoSlotOf(b, e);
    CreateOk(b, e, curMillis);
    var b1 := Create(b, e, curMillis);
    var b2 := b1.(execs := b1.execs[e := b1.execs[e].(fd0 := fd)]);
    FdAssigned(b1, e, fd);
    SameSlots(b, b2, block);
    AddOk(b2, e, fd, epollOk, block);
    var a := AddPollFd(b2, e, fd, epollOk, block);
    if a.ok {
      LiveKeepsOk(a.books, e);
    } else {
      RemoveExecutorOk(a.books, e);
      WithoutHead(e, b.usedExecs);
    }
  }

  lemma SameSlots(b: Books, b': Books, block: seq<PollData>)
    requires CanAllocate(b, block) && b'.freePolls == b.freePolls && b'.polls == b.polls
    ensures CanAllocate(b', block) && FreeSlots(b', block) == FreeSlots(b, block)
  {
  }

  lemma NoSlotOf(b: Books, e: ExecutorData)
    requires BooksOk(b) && e !in b.execs
    ensures forall p <- b.polls :: b.polls[p].execData != e
  {
    forall p <- b.polls ensures b.polls[p].execData != e {
      assert PollOk(b, p);
    }
  }

  lemma WithoutHead<T>(x: T, s: seq<T>)
    ensures Without([x] + s, x) == s
  {
  }

  lemma FdAssigned(b: Books, e: ExecutorData, fd: int)
    requires BooksOk(b) && e in b.execs && b.execs[e].pollData0 == null && fd > 0 && b.execs[e].fd1 != fd
    ensures BooksOk(b.(execs := b.execs[e := b.execs[e].(fd0 := fd)]))
  {
    hide Distinct, Elements;
    var b1 := b.(execs := b.execs[e := b.execs[e].(fd0 := fd)]);
    forall p <- b1.polls ensures PollOk(b1, p) {
      assert PollOk(b, p);
    }
  }

  lemma LiveKeepsOk(b: Books, e: ExecutorData)
    requires BooksOk(b) && e in b.execs
    ensures BooksOk(b.(execs := b.execs[e := b.execs[e].(live := true)]))
  {
    hide Distinct, Elements;
    var b1 := b.(execs := b.execs[e := b.execs[e].(live := true)]);
    forall p <- b1.polls ensures PollOk(b1, p) {
      assert PollOk(b, p);
    }
  }
}
