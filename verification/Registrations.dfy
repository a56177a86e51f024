/** An executor's view of its registrations, one interest per descriptor, and the poll loop's, a slot that points back
    at the record: the two agree, and every operation keeps them in agreement. */
module Registrations {
  import opened BlockStorage
  import opened PollBooks
  import P = ProxyModel
  import R = PollRuns

  datatype View = View(poll0: P.Interest, poll1: P.Interest) {
    function At(fd: P.Fd): P.Interest {
      if fd == P.Fd0 then poll0 else poll1
    }

    function With(fd: P.Fd, i: P.Interest): View {
      if fd == P.Fd0 then this.(poll0 := i) else this.(poll1 := i)
    }
  }

  /** What an executor asks of the loop for one of its descriptors, with the kernel's answer. */
  datatype Ask =
    | Register(fd: P.Fd, wanted: P.Interest, epollOk: bool)
    | Change(fd: P.Fd, wanted: P.Interest, epollOk: bool)
    | Unregister(fd: P.Fd, epollOk: bool)
    | CloseUpstream

  /** Whether the executor is told that it was done. */
  predicate Granted(v: View, a: Ask) {
    match a
    case Register(fd, _, epollOk) => epollOk && v.At(fd) == P.NotPolled
    case Change(fd, _, epollOk) => epollOk && v.At(fd) != P.NotPolled
    case Unregister(fd, epollOk) => epollOk && v.At(fd) != P.NotPolled
    case CloseUpstream => true
  }

  function After(v: View, a: Ask): View {
    if !Granted(v, a) then v
    else match a
      case Register(fd, wanted, _) => v.With(fd, wanted)
      case Change(fd, wanted, _) => v.With(fd, wanted)
      case Unregister(fd, _) => v.With(fd, P.NotPolled)
      case CloseUpstream => v.With(P.Fd1, P.NotPolled)
  }

  function Descriptor(r: ExecRecord, fd: P.Fd): int {
    if fd == P.Fd0 then r.fd0 else r.fd1
  }

  function Slot(r: ExecRecord, fd: P.Fd): Item?<PollRecord> {
    if fd == P.Fd0 then r.pollData0 else r.pollData1
  }

  /** The executor takes a descriptor for polled exactly if the record has a slot for it. */
  predicate Agrees(b: Books, e: ExecutorData, v: View) {
    e in b.execs && forall fd :: v.At(fd) != P.NotPolled <==> Slot(b.execs[e], fd) != null
  }

  /** What an executor takes for polled is what the kernel reports, to a slot that leads back to this record and this
      descriptor. */
  lemma PolledIsReported(b: Books, e: ExecutorData, v: View, fd: P.Fd)
    requires BooksOk(b) && Agrees(b, e, v)
    ensures var n := Descriptor(b.execs[e], fd);
            v.At(fd) != P.NotPolled <==>
              n in b.interest && b.interest[n] in b.polls && b.polls[b.interest[n]] == PollRecord(n, e)
  {
    hide ListsOk;
    assert ExecOk(b, e);
    var r := b.execs[e];
    var n := Descriptor(r, fd);
    var slot := Slot(r, fd);
    if slot != null {
      assert PollOk(b, slot);
    } else if n in b.interest {
      assert PollOk(b, b.interest[n]);
    }
  }

  lemma AddAgrees(b: Books, e: ExecutorData, v: View, fd: P.Fd, wanted: P.Interest, epollOk: bool, block: seq<PollData>)
    requires BooksOk(b) && Agrees(b, e, v) && CanAllocate(b, block) && wanted != P.NotPolled
    requires b.execs[e].fd0 != b.execs[e].fd1
    ensures var a := AddPollFd(b, e, Descriptor(b.execs[e], fd), epollOk, block);
            && a.ok == (epollOk && v.At(fd) == P.NotPolled)
            && Agrees(a.books, e, if a.ok then v.With(fd, wanted) else v)
  {
    hide BooksOk, CanAllocate;
    var r := b.execs[e];
    assert v.At(fd) != P.NotPolled <==> Slot(r, fd) != null;
    var a := AddPollFd(b, e, Descriptor(r, fd), epollOk, block);
    var v1 := if a.ok then v.With(fd, wanted) else v;
    forall x ensures v1.At(x) != P.NotPolled <==> Slot(a.books.execs[e], x) != null {
      assert v.At(x) != P.NotPolled <==> Slot(r, x) != null;
    }
  }

  lemma EditAgrees(b: Books, e: ExecutorData, v: View, fd: P.Fd, wanted: P.Interest, epollOk: bool)
    requires Agrees(b, e, v) && wanted != P.NotPolled
    ensures var ok := epollOk && v.At(fd) != P.NotPolled;
            Agrees(b, e, if ok then v.With(fd, wanted) else v)
  {
  }

  lemma RemoveAgrees(b: Books, e: ExecutorData, v: View, fd: P.Fd, epollOk: bool)
    requires BooksOk(b) && Agrees(b, e, v) && b.execs[e].fd0 != b.execs[e].fd1
    ensures var a := RemovePollFd(b, e, Descriptor(b.execs[e], fd), epollOk);
            && a.ok == (epollOk && v.At(fd) != P.NotPolled)
            && Agrees(a.books, e, if a.ok then v.With(fd, P.NotPolled) else v)
  {
    hide BooksOk, Without;
    var r := b.execs[e];
    assert v.At(fd) != P.NotPolled <==> Slot(r, fd) != null;
    SlotsAreUsed(b, e);
    var a := RemovePollFd(b, e, Descriptor(r, fd), epollOk);
    var v1 := if a.ok then v.With(fd, P.NotPolled) else v;
    forall x ensures v1.At(x) != P.NotPolled <==> Slot(a.books.execs[e], x) != null {
      assert v.At(x) != P.NotPolled <==> Slot(r, x) != null;
    }
  }

  lemma SlotsAreUsed(b: Books, e: ExecutorData)
    requires BooksOk(b) && e in b.execs
    ensures forall fd :: Slot(b.execs[e], fd) != null ==> Slot(b.execs[e], fd) in b.usedPolls
    ensures b.execs[e].pollData0 != null ==> b.execs[e].pollData0 != b.execs[e].pollData1
  {
    hide Distinct, Elements, PollOk;
    assert ExecOk(b, e);
    var r := b.execs[e];
    if r.pollData0 != null {
      MemberElement<PollData>(b.usedPolls, r.pollData0);
    }
    if r.pollData1 != null {
      MemberElement<PollData>(b.usedPolls, r.pollData1);
    }
  }

  /** The upstream's end of stream: its descriptor is closed and no longer polled. */
  lemma CloseAgrees(b: Books, e: ExecutorData, v: View)
    requires BooksOk(b) && Agrees(b, e, v) && b.execs[e].fd0 != b.execs[e].fd1
    ensures var a := CloseFd(b, e, b.execs[e].fd1);
            a.ok && Agrees(a.books, e, v.With(P.Fd1, P.NotPolled))
  {
    hide BooksOk, RemovePollFd;
    var r := b.execs[e];
    assert v.At(P.Fd0) != P.NotPolled <==> Slot(r, P.Fd0) != null;
    assert v.At(P.Fd1) != P.NotPolled <==> Slot(r, P.Fd1) != null;
    RemovePollOk(b, e, r.fd1, true);
    RemoveAgrees(b, e, v, P.Fd1, true);
    FdsStay(b, e, r.fd1);
  }

  lemma FdsStay(b: Books, e: ExecutorData, fd: int)
    requires e in b.execs
    ensures var b1 := RemovePollFd(b, e, fd, true).books;
            e in b1.execs && b1.execs[e].fd0 == b.execs[e].fd0 && b1.execs[e].fd1 == b.execs[e].fd1
  {
  }

  // ---- Whole runs ----

  /** The loop's side of an executor's request. */
  function OpOf(b: Books, e: ExecutorData, a: Ask, block: seq<PollData>): R.LoopOp
    requires e in b.execs
  {
    match a
    case Register(fd, _, epollOk) => R.Add(Descriptor(b.execs[e], fd), epollOk, block)
    case Change(_, _, _) => R.Edit
    case Unregister(fd, epollOk) => R.Remove(Descriptor(b.execs[e], fd), epollOk)
    case CloseUpstream => R.Close(b.execs[e].fd1)
  }

  /** What the server does next: a request of this record's executor, something that another record's executor asks
      for, or the release of another record. */
  datatype Turn =
    | Own(ask: Ask, block: seq<PollData>)
    | Others(other: ExecutorData, op: R.LoopOp)
    | Released(other: ExecutorData)

  predicate Legal(b: Books, e: ExecutorData, t: Turn) {
    e in b.execs &&
    match t
    case Own(ask, block) =>
      && b.execs[e].fd0 != b.execs[e].fd1 && R.LegalOp(b, e, OpOf(b, e, ask, block))
      && (ask.Register? ==> ask.wanted != P.NotPolled && CanAllocate(b, block))
      && (ask.Change? ==> ask.wanted != P.NotPolled)
    case Others(other, op) => other != e && other in b.execs && R.LegalOp(b, other, op)
    case Released(other) => other != e && other in b.execs
  }

  function BooksAfter(b: Books, e: ExecutorData, t: Turn): Books
    requires Legal(b, e, t)
  {
    match t
    case Own(ask, block) => R.Do(b, e, OpOf(b, e, ask, block))
    case Others(other, op) => R.Do(b, other, op)
    case Released(other) => RemoveExecutorData(b, other)
  }

  function ViewAfter(v: View, t: Turn): View {
    if t.Own? then After(v, t.ask) else v
  }

  lemma OwnAgrees(b: Books, e: ExecutorData, v: View, ask: Ask, block: seq<PollData>)
    requires BooksOk(b) && Agrees(b, e, v) && Legal(b, e, Own(ask, block))
    ensures Agrees(R.Do(b, e, OpOf(b, e, ask, block)), e, After(v, ask))
  {
    hide BooksOk, Agrees, CanAllocate, AddPollFd, RemovePollFd, CloseFd;
    AgreesAt(b, e, v);
    match ask
    case Register(fd, wanted, epollOk) => AddAgrees(b, e, v, fd, wanted, epollOk, block);
    case Change(fd, wanted, epollOk) => EditAgrees(b, e, v, fd, wanted, epollOk);
    case Unregister(fd, epollOk) => RemoveAgrees(b, e, v, fd, epollOk);
    case CloseUpstream => CloseAgrees(b, e, v);
  }

  lemma AgreesAt(b: Books, e: ExecutorData, v: View)
    requires Agrees(b, e, v)
    ensures e in b.execs
  {
  }

  /** Nothing that the loop does for another record touches this one. */
  lemma OthersLeave(b: Books, e: ExecutorData, other: ExecutorData, op: R.LoopOp)
    requires BooksOk(b) && e in b.execs && other in b.execs && other != e && R.LegalOp(b, other, op)
    ensures var b1 := R.Do(b, other, op);
            e in b1.execs && b1.execs[e] == b.execs[e]
  {
    hide BooksOk, CanAllocate, RemoveExecutorData, Without;
    match op
    case Close(fd) =>
      if SlotFor(b.execs[other], fd) != null {
        RemovedRecord(b, other, fd);
      }
    case Spawn(e2, fd, curMillis, epollOk, block) => SpawnLeaves(b, e, e2, fd, curMillis, epollOk, block);
    case _ =>
  }

  lemma SpawnLeaves(b: Books, e: ExecutorData, e2: ExecutorData, fd: int, curMillis: int, epollOk: bool,
                    block: seq<PollData>)
    requires BooksOk(b) && e in b.execs && e2 !in b.execs && CanAllocate(b, block) && fd > 0
    requires epollOk ==> fd !in b.interest
    ensures var b1 := CreateRequestExecutor(b, e2, fd, curMillis, epollOk, block).books;
            e in b1.execs && b1.execs[e] == b.execs[e]
  {
    hide BooksOk, CanAllocate, FreeSlots, RemoveExecutorData, Without;
    CreateOk(b, e2, curMillis);
    var b1 := Create(b, e2, curMillis);
    FdAssigned(b1, e2, fd);
    var b2 := b1.(execs := b1.execs[e2 := b1.execs[e2].(fd0 := fd)]);
    SameSlots(b, b2, block);
    AddOk(b2, e2, fd, epollOk, block);
    var a := AddPollFd(b2, e2, fd, epollOk, block);
    if !a.ok {
      RemoveExecutorOk(a.books, e2);
    }
  }

  lemma TurnAgrees(b: Books, e: ExecutorData, v: View, t: Turn)
    requires BooksOk(b) && Agrees(b, e, v) && Legal(b, e, t)
    ensures BooksOk(BooksAfter(b, e, t)) && Agrees(BooksAfter(b, e, t), e, ViewAfter(v, t))
  {
    hide BooksOk, R.Do, R.LegalOp, RemoveExecutorData, After;
    match t
    case Own(ask, block) =>
      OwnAgrees(b, e, v, ask, block);
      R.DoOk(b, e, OpOf(b, e, ask, block));
    case Others(other, op) =>
      OthersLeave(b, e, other, op);
      R.DoOk(b, other, op);
    case Released(other) =>
      RemoveExecutorOk(b, other);
  }

  predicate LegalTurns(b: Books, e: ExecutorData, turns: seq<Turn>)
    decreases |turns|
  {
    turns == [] || (Legal(b, e, turns[0]) && LegalTurns(BooksAfter(b, e, turns[0]), e, turns[1..]))
  }

  function BooksAtEnd(b: Books, e: ExecutorData, turns: seq<Turn>): Books
    requires LegalTurns(b, e, turns)
    decreases |turns|
  {
    if turns == [] then b else BooksAtEnd(BooksAfter(b, e, turns[0]), e, turns[1..])
  }

  function ViewAtEnd(v: View, turns: seq<Turn>): View
    decreases |turns|
  {
    if turns == [] then v else ViewAtEnd(ViewAfter(v, turns[0]), turns[1..])
  }

  /** Whatever this record's executor asks for, and whatever happens to other records in between, the executor's view
      and the loop's books stay in agreement. */
  lemma {:induction false} TurnsAgree(b: Books, e: ExecutorData, v: View, turns: seq<Turn>)
    requires BooksOk(b) && Agrees(b, e, v) && LegalTurns(b, e, turns)
    ensures BooksOk(BooksAtEnd(b, e, turns)) && Agrees(BooksAtEnd(b, e, turns), e, ViewAtEnd(v, turns))
    decreases |turns|
  {
    hide BooksOk, Agrees, BooksAfter, ViewAfter, Legal;
    if turns != [] {
      TurnAgrees(b, e, v, turns[0]);
      TurnsAgree(BooksAfter(b, e, turns[0]), e, ViewAfter(v, turns[0]), turns[1..]);
    }
  }

  /** A record that has just been set up for reading a request is in agreement, and so is what it becomes by any run of
      turns. */
  lemma AgreesFromStart(b: Books, e: ExecutorData, fd: int, curMillis: int, block: seq<PollData>, turns: seq<Turn>)
    requires BooksOk(b) && e !in b.execs && CanAllocate(b, block) && fd > 0 && fd !in b.interest
    requires LegalTurns(CreateRequestExecutor(b, e, fd, curMillis, true, block).books, e, turns)
    ensures var b1 := CreateRequestExecutor(b, e, fd, curMillis, true, block).books;
            && Agrees(b1, e, View(P.ForRead, P.NotPolled))
            && Agrees(BooksAtEnd(b1, e, turns), e, ViewAtEnd(View(P.ForRead, P.NotPolled), turns))
            && BooksOk(BooksAtEnd(b1, e, turns))
  {
    hide BooksOk, CanAllocate, CreateRequestExecutor, LegalTurns, BooksAtEnd, ViewAtEnd, Agrees;
    CreateRequestOk(b, e, fd, curMillis, true, block);
    NewAgrees(b, e, fd, curMillis, block);
    TurnsAgree(CreateRequestExecutor(b, e, fd, curMillis, true, block).books, e, View(P.ForRead, P.NotPolled), turns);
  }

  lemma NewAgrees(b: Books, e: ExecutorData, fd: int, curMillis: int, block: seq<PollData>)
    requires CanAllocate(b, block) && fd > 0
    ensures Agrees(CreateRequestExecutor(b, e, fd, curMillis, true, block).books, e, View(P.ForRead, P.NotPolled))
  {
    hide CanAllocate, RemoveExecutorData;
    var b1 := CreateRequestExecutor(b, e, fd, curMillis, true, block).books;
    assert b1.execs[e].pollData1 == null && b1.execs[e].pollData0 != null;
  }
}
