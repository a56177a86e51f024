/** The poll loop over a batch of events and over its timeout sweep (src/PollLoop.cpp): to whom an
    event is dispatched, whatever the handlers of earlier events did to the books. */
module PollRuns {
  import opened BlockStorage
  import opened ExecutorLimits
  import opened PollBooks
  import opened ProcessResults

  // ---- The timeout sweep ----

  predicate Expired(r: ExecRecord, curMillis: int, timeoutMillis: int) {
    r.removeOnTimeout && (curMillis - r.lastProcessTime > timeoutMillis
                          || curMillis - r.createTime > MAX_TIME_TO_LIVE_MILLIS)
  }

  function Victims(b: Books, es: seq<ExecutorData>, curMillis: int, timeoutMillis: int): (vs: seq<ExecutorData>)
    requires Elements(es) <= b.execs.Keys
    ensures forall v <- vs :: v in es && v in b.execs
  {
    if es == [] then []
    else
      assert es[0] in Elements(es);
      assert Elements(es[1..]) <= Elements(es);
      (if Expired(b.execs[es[0]], curMillis, timeoutMillis) then [es[0]] else [])
      + Victims(b, es[1..], curMillis, timeoutMillis)
  }

  function RemoveAll(b: Books, vs: seq<ExecutorData>): Books
    decreases |vs|
  {
    if vs == [] || vs[0] !in b.execs then b else RemoveAll(RemoveExecutorData(b, vs[0]), vs[1..])
  }

  function CheckTimeout(b: Books, curMillis: int, timeoutMillis: int): Books
    requires Elements(b.usedExecs) <= b.execs.Keys
  {
    RemoveAll(b, Victims(b, b.usedExecs, curMillis, timeoutMillis))
  }

  /** `s` without the elements of `gone`, in the same order. */
  function Keep<T(==)>(s: seq<T>, gone: set<T>): seq<T> {
    if s == [] then [] else (if s[0] in gone then [] else [s[0]]) + Keep(s[1..], gone)
  }

  lemma {:induction false} KeepNone<T>(s: seq<T>)
    ensures Keep(s, {}) == s
  {
    if s != [] {
      KeepNone(s[1..]);
    }
  }

  lemma {:induction false} KeepAfterWithout<T>(s: seq<T>, x: T, gone: set<T>)
    requires Distinct(s) && x in s
    ensures Keep(Without(s, x), gone) == Keep(s, gone + {x})
  {
    if s[0] == x {
      KeepIgnores(s[1..], x, gone);
    } else {
      KeepAfterWithout(s[1..], x, gone);
    }
  }

  lemma {:induction false} KeepIgnores<T>(s: seq<T>, x: T, gone: set<T>)
    requires x !in s
    ensures Keep(s, gone) == Keep(s, gone + {x})
  {
    if s != [] {
      assert s[0] in s;
      KeepIgnores(s[1..], x, gone);
    }
  }

  /** Everything about the connections that a sweep over `vs` leaves behind. */
  ghost predicate SweptTo(b: Books, vs: seq<ExecutorData>, b1: Books) {
    && BooksOk(b1)
    && b1.usedExecs == Keep(b.usedExecs, Elements(vs))
    && b1.execs == b.execs - Elements(vs)
    && (forall p <- b.polls :: p in b1.polls <==> b.polls[p].execData !in Elements(vs))
    && (forall p <- b1.polls :: p in b.polls && b1.polls[p] == b.polls[p])
  }

  lemma {:induction false} RemoveAllOk(b: Books, vs: seq<ExecutorData>)
    requires BooksOk(b) && Distinct(vs) && Elements(vs) <= b.execs.Keys
    ensures SweptTo(b, vs, RemoveAll(b, vs))
    decreases |vs|
  {
    hide BooksOk, RemoveExecutorData, Keep, Distinct, ClosedByDown, Elements;
    if vs == [] {
      KeepNone(b.usedExecs);
      NoElements(vs);
    } else {
      var e, rest := vs[0], vs[1..];
      FirstElement(vs);
      RemoveExecutorOk(b, e);
      TailOfDistinct(vs);
      var b1 := RemoveExecutorData(b, e);
      RemoveAllOk(b1, rest);
      UsedAreDistinct(b);
      KeepAfterWithout(b.usedExecs, e, Elements(rest));
      assert Elements(rest) + {e} == Elements(vs);
    }
  }

  lemma NoElements<T>(s: seq<T>)
    requires s == []
    ensures Elements(s) == {}
  {
  }

  lemma UsedAreDistinct(b: Books)
    requires BooksOk(b)
    ensures Distinct(b.usedExecs) && b.execs.Keys == Elements(b.usedExecs)
  {
  }

  lemma {:induction false} VictimsAre(b: Books, es: seq<ExecutorData>, curMillis: int, timeoutMillis: int)
    requires Elements(es) <= b.execs.Keys && Distinct(es)
    ensures var vs := Victims(b, es, curMillis, timeoutMillis);
            && Distinct(vs)
            && forall e :: e in Elements(vs) <==> e in Elements(es) && Expired(b.execs[e], curMillis, timeoutMillis)
  {
    if es != [] {
      assert es[0] in Elements(es);
      TailOfDistinct(es);
      VictimsAre(b, es[1..], curMillis, timeoutMillis);
      var rest := Victims(b, es[1..], curMillis, timeoutMillis);
      ElementsCons(es[0], rest);
      assert es[0] !in Elements(rest);
      DistinctCons(es[0], rest);
      assert [] + rest == rest;
      assert Elements(es) == Elements(es[1..]) + {es[0]};
    } else {
      assert Elements(es) == {};
    }
  }

  /** The sweep removes exactly the removable expired connections, keeps the others in their order,
      and takes down exactly the registrations of the removed ones. */
  lemma SweepExactly(b: Books, curMillis: int, timeoutMillis: int)
    requires BooksOk(b)
    ensures Elements(b.usedExecs) <= b.execs.Keys
    ensures var b1 := CheckTimeout(b, curMillis, timeoutMillis);
            && BooksOk(b1)
            && (forall e <- b.execs :: e in b1.execs <==> !Expired(b.execs[e], curMillis, timeoutMillis))
            && (forall e <- b1.execs :: e in b.execs && b1.execs[e] == b.execs[e])
            && b1.usedExecs == Keep(b.usedExecs, b.execs.Keys - b1.execs.Keys)
            && (forall p <- b.polls :: p in b1.polls <==> b.polls[p].execData in b1.execs)
  {
    UsedAreDistinct(b);
    VictimsAre(b, b.usedExecs, curMillis, timeoutMillis);
    var vs := Victims(b, b.usedExecs, curMillis, timeoutMillis);
    RemoveAllOk(b, vs);
    var b1 := RemoveAll(b, vs);
    assert b.execs.Keys - b1.execs.Keys == Elements(vs);
    forall p <- b.polls ensures b.polls[p].execData in b.execs {
      assert PollOk(b, p);
    }
  }

  // ---- New connections from other threads ----

  /** checkNewFd's treatment of one queued descriptor: a failed set-up is followed by one more close. */
  function AcceptQueued(b: Books, e: ExecutorData, fd: int, curMillis: int, epollOk: bool, block: seq<PollData>): Books
    requires CanAllocate(b, block)
  {
    var a := CreateRequestExecutor(b, e, fd, curMillis, epollOk, block);
    if a.ok then a.books else a.books.(closed := a.books.closed + [fd])
  }

  /** A queued descriptor is closed twice exactly when its registration fails, and otherwise not at all. */
  lemma ClosedTwiceExactly(b: Books, e: ExecutorData, fd: int, curMillis: int, epollOk: bool, block: seq<PollData>)
    requires BooksOk(b) && e !in b.execs && CanAllocate(b, block) && fd > 0 && (epollOk ==> fd !in b.interest)
    ensures AcceptQueued(b, e, fd, curMillis, epollOk, block).closed
            == b.closed + (if epollOk then [] else [fd, fd])
  {
    CreateRequestOk(b, e, fd, curMillis, epollOk, block);
    assert (b.closed + [fd]) + [fd] == b.closed + [fd, fd];
    assert b.closed + [] == b.closed;
  }

  /** A queued descriptor with the answers that the storages and the kernel give for it. */
  datatype Queued = Queued(e: ExecutorData, fd: int, epollOk: bool, block: seq<PollData>)

  ghost predicate LegalQueue(b: Books, qs: seq<Queued>, curMillis: int)
    decreases |qs|, 0
  {
    qs == [] || (
      var n := |qs| - 1;
      && LegalQueue(b, qs[..n], curMillis)
      && var b1 := AcceptAll(b, qs[..n], curMillis);
         && qs[n].e !in b1.execs && CanAllocate(b1, qs[n].block) && qs[n].fd > 0
         && (qs[n].epollOk ==> qs[n].fd !in b1.interest))
  }

  /** The loop over the queue. */
  ghost function AcceptAll(b: Books, qs: seq<Queued>, curMillis: int): Books
    requires LegalQueue(b, qs, curMillis)
    decreases |qs|, 1
  {
    if qs == [] then b
    else
      var n := |qs| - 1;
      AcceptQueued(AcceptAll(b, qs[..n], curMillis), qs[n].e, qs[n].fd, curMillis, qs[n].epollOk, qs[n].block)
  }

  /** Each descriptor whose set-up failed, twice. */
  function FailedTwice(qs: seq<Queued>): seq<int> {
    if qs == [] then []
    else
      var q := qs[|qs| - 1];
      FailedTwice(qs[..|qs| - 1]) + (if q.epollOk then [] else [q.fd, q.fd])
  }

  lemma ClosingKeepsBooks(b: Books, fd: int)
    requires BooksOk(b)
    ensures BooksOk(b.(closed := b.closed + [fd]))
  {
    var b1 := b.(closed := b.closed + [fd]);
    forall p <- b1.polls ensures PollOk(b1, p) {
      assert PollOk(b, p);
    }
    forall x <- b1.execs ensures ExecOk(b1, x) {
      assert ExecOk(b, x);
    }
  }

  /** Emptying the queue keeps the books, and closes every descriptor whose set-up fails twice and no other. */
  lemma {:induction false} QueueClosesExactly(b: Books, qs: seq<Queued>, curMillis: int)
    requires BooksOk(b) && LegalQueue(b, qs, curMillis)
    ensures BooksOk(AcceptAll(b, qs, curMillis))
    ensures AcceptAll(b, qs, curMillis).closed == b.closed + FailedTwice(qs)
    decreases |qs|
  {
    hide BooksOk, CreateRequestExecutor, CanAllocate;
    if qs != [] {
      var n := |qs| - 1;
      var q := qs[n];
      QueueClosesExactly(b, qs[..n], curMillis);
      var b1 := AcceptAll(b, qs[..n], curMillis);
      CreateRequestOk(b1, q.e, q.fd, curMillis, q.epollOk, q.block);
      ClosedTwiceExactly(b1, q.e, q.fd, curMillis, q.epollOk, q.block);
      var a := CreateRequestExecutor(b1, q.e, q.fd, curMillis, q.epollOk, q.block);
      if !a.ok {
        ClosingKeepsBooks(a.books, q.fd);
      }
    } else {
      assert b.closed + [] == b.closed;
    }
  }

  lemma NothingQueued(b: Books, curMillis: int)
    ensures LegalQueue(b, [], curMillis) && AcceptAll(b, [], curMillis) == b
  {
  }

  lemma OneMoreQueued(b: Books, qs: seq<Queued>, q: Queued, curMillis: int)
    requires LegalQueue(b, qs, curMillis)
    requires var b1 := AcceptAll(b, qs, curMillis);
             && q.e !in b1.execs && CanAllocate(b1, q.block) && q.fd > 0 && (q.epollOk ==> q.fd !in b1.interest)
    ensures LegalQueue(b, qs + [q], curMillis)
    ensures AcceptAll(b, qs + [q], curMillis)
            == AcceptQueued(AcceptAll(b, qs, curMillis), q.e, q.fd, curMillis, q.epollOk, q.block)
  {
    hide AcceptQueued, CanAllocate;
    assert (qs + [q])[..|qs|] == qs;
  }

  // ---- What a handler may do during its process call ----

  datatype LoopOp =
    | Add(fd: int, epollOk: bool, block: seq<PollData>)
    | Edit
    | Remove(fd: int, epollOk: bool)
    | Close(fd: int)
    | OpenFd1(fd: int)
    | Spawn(e: ExecutorData, fd: int, curMillis: int, epollOk: bool, block: seq<PollData>)

  predicate LegalOp(b: Books, e: ExecutorData, op: LoopOp)
    requires e in b.execs
  {
    match op
    case Add(fd, epollOk, block) =>
      (AddAllowed(b.execs[e], fd) ==> CanAllocate(b, block)) && (epollOk ==> fd > 0 && fd !in b.interest)
    case Edit => true
    case Remove(_, _) => true
    case Close(_) => true
    case OpenFd1(fd) => b.execs[e].pollData1 == null && fd > 0 && fd != b.execs[e].fd0
    case Spawn(e2, fd, _, epollOk, block) =>
      e2 !in b.execs && CanAllocate(b, block) && fd > 0 && (epollOk ==> fd !in b.interest)
  }

  function Do(b: Books, e: ExecutorData, op: LoopOp): Books
    requires e in b.execs && LegalOp(b, e, op)
  {
    match op
    case Add(fd, epollOk, block) => AddPollFd(b, e, fd, epollOk, block).books
    case Edit => b
    case Remove(fd, epollOk) => RemovePollFd(b, e, fd, epollOk).books
    case Close(fd) => CloseFd(b, e, fd).books
    case OpenFd1(fd) => b.(execs := b.execs[e := b.execs[e].(fd1 := fd)])
    case Spawn(e2, fd, curMillis, epollOk, block) => CreateRequestExecutor(b, e2, fd, curMillis, epollOk, block).books
  }

  /** What an operation registers: the slot that was handed out and what it now stands for. */
  function Registers(b: Books, e: ExecutorData, op: LoopOp): map<PollData, PollRecord>
    requires e in b.execs && LegalOp(b, e, op)
  {
    match op
    case Add(fd, epollOk, block) =>
      if AddPollFd(b, e, fd, epollOk, block).ok then map[FreeSlots(b, block)[0] := PollRecord(fd, e)] else map[]
    case Spawn(e2, fd, curMillis, epollOk, block) =>
      if CreateRequestExecutor(b, e2, fd, curMillis, epollOk, block).ok
      then map[FreeSlots(b, block)[0] := PollRecord(fd, e2)] else map[]
    case _ => map[]
  }

  /** Every slot in use stands for what was last registered for it, and if nothing was, for what it stood for
      before. */
  ghost predicate StandsFor(b: Books, b1: Books, reg: map<PollData, PollRecord>) {
    forall p <- b1.polls :: if p in reg then b1.polls[p] == reg[p] else p in b.polls && b1.polls[p] == b.polls[p]
  }

  /** Books are kept, the handler's own record stays in use, and the slots stand for what was registered. */
  ghost predicate KeptBy(b: Books, e: ExecutorData, b1: Books, reg: map<PollData, PollRecord>) {
    BooksOk(b1) && e in b1.execs && StandsFor(b, b1, reg)
  }

  lemma DoOk(b: Books, e: ExecutorData, op: LoopOp)
    requires BooksOk(b) && e in b.execs && LegalOp(b, e, op)
    ensures KeptBy(b, e, Do(b, e, op), Registers(b, e, op))
  {
    hide BooksOk;
    match op
    case Add(fd, epollOk, block) =>
      AddOk(b, e, fd, epollOk, block);
    case Edit =>
    case Remove(fd, epollOk) =>
      RemovePollOk(b, e, fd, epollOk);
    case Close(fd) =>
      CloseOk(b, e, fd);
      ClosePolls(b, e, fd);
    case OpenFd1(fd) =>
      Fd1Assigned(b, e, fd);
    case Spawn(e2, fd, curMillis, epollOk, block) =>
      CreateRequestOk(b, e2, fd, curMillis, epollOk, block);
      SpawnKeeps(b, e, e2, fd, curMillis, epollOk, block);
  }

  lemma ClosePolls(b: Books, e: ExecutorData, fd: int)
    requires BooksOk(b) && e in b.execs
    ensures forall p <- CloseFd(b, e, fd).books.polls :: p in b.polls && CloseFd(b, e, fd).books.polls[p] == b.polls[p]
  {
  }

  lemma Fd1Assigned(b: Books, e: ExecutorData, fd: int)
    requires BooksOk(b) && e in b.execs && b.execs[e].pollData1 == null && fd > 0 && b.execs[e].fd0 != fd
    ensures BooksOk(b.(execs := b.execs[e := b.execs[e].(fd1 := fd)]))
  {
    hide Distinct, Elements;
    var b1 := b.(execs := b.execs[e := b.execs[e].(fd1 := fd)]);
    forall p <- b1.polls ensures PollOk(b1, p) {
      assert PollOk(b, p);
    }
    forall x <- b1.execs ensures ExecOk(b1, x) {
      assert ExecOk(b, x);
    }
  }

  lemma SpawnKeeps(b: Books, e: ExecutorData, e2: ExecutorData, fd: int, curMillis: int, epollOk: bool,
                   block: seq<PollData>)
    requires BooksOk(b) && e in b.execs && e2 !in b.execs && CanAllocate(b, block) && fd > 0
    requires epollOk ==> fd !in b.interest
    ensures e in CreateRequestExecutor(b, e2, fd, curMillis, epollOk, block).books.execs
  {
    var b1 := CreateRequestExecutor(b, e2, fd, curMillis, epollOk, block).books;
    CreateRequestOk(b, e2, fd, curMillis, epollOk, block);
    UsedAreDistinct(b);
    UsedAreDistinct(b1);
    if epollOk {
      ElementsCons(e2, b.usedExecs);
    }
  }

  ghost predicate LegalOps(b: Books, e: ExecutorData, ops: seq<LoopOp>)
    requires e in b.execs
    decreases |ops|, 0
  {
    ops == [] || (
      var n := |ops| - 1;
      LegalOps(b, e, ops[..n]) && e in DoAll(b, e, ops[..n]).execs && LegalOp(DoAll(b, e, ops[..n]), e, ops[n]))
  }

  ghost function DoAll(b: Books, e: ExecutorData, ops: seq<LoopOp>): Books
    requires e in b.execs && LegalOps(b, e, ops)
    decreases |ops|, 1
  {
    if ops == [] then b else Do(DoAll(b, e, ops[..|ops| - 1]), e, ops[|ops| - 1])
  }

  /** What the operations registered last, slot by slot. */
  ghost function RegistersAll(b: Books, e: ExecutorData, ops: seq<LoopOp>): map<PollData, PollRecord>
    requires e in b.execs && LegalOps(b, e, ops)
    decreases |ops|
  {
    if ops == [] then map[]
    else RegistersAll(b, e, ops[..|ops| - 1]) + Registers(DoAll(b, e, ops[..|ops| - 1]), e, ops[|ops| - 1])
  }

  lemma OneMoreOp(b: Books, e: ExecutorData, ops: seq<LoopOp>, op: LoopOp)
    requires e in b.execs && LegalOps(b, e, ops) && e in DoAll(b, e, ops).execs && LegalOp(DoAll(b, e, ops), e, op)
    ensures LegalOps(b, e, ops + [op]) && DoAll(b, e, ops + [op]) == Do(DoAll(b, e, ops), e, op)
  {
    hide LegalOp, Do;
    assert (ops + [op])[..|ops|] == ops;
  }

  lemma {:induction false} DoAllOk(b: Books, e: ExecutorData, ops: seq<LoopOp>)
    requires BooksOk(b) && e in b.execs && LegalOps(b, e, ops)
    ensures KeptBy(b, e, DoAll(b, e, ops), RegistersAll(b, e, ops))
    decreases |ops|
  {
    hide BooksOk, Do, LegalOp, Registers;
    if ops != [] {
      var n := |ops| - 1;
      DoAllOk(b, e, ops[..n]);
      DoOk(DoAll(b, e, ops[..n]), e, ops[n]);
    }
  }

  // ---- One batch of events ----

  /** What epoll_wait reported for a slot: a hang-up or error flag among other bits. */
  datatype Event = Event(slot: PollData, hangup: bool)

  /** What the executor's process call does to the books, and how it ends. */
  datatype Handler = Handler(ops: seq<LoopOp>, result: ProcessResult, retryCounter: int)

  /** An event that was dispatched: the slot it came from, the connection and the descriptor it was
      given to, and whether that connection was in use at that moment. */
  datatype Entry = Entry(slot: PollData, execData: ExecutorData, fd: int, inUse: bool)

  /** The books after some events, what was dispatched, and what was registered meanwhile. */
  datatype Batch = Batch(books: Books, log: seq<Entry>, reg: map<PollData, PollRecord>, stopped: bool)

  /** `pollData->execData`, also for a slot that has been freed: freeing resets it. */
  function Owner(b: Books, p: PollData): Item?<ExecRecord> {
    if p in b.polls then b.polls[p].execData else null
  }

  /** The removal of a connection on a hang-up of its first descriptor, without a process call. */
  predicate HangsUp(b: Books, ev: Event) {
    ev.slot in b.polls && b.polls[ev.slot].execData != null && b.polls[ev.slot].execData in b.execs
    && ev.hangup && b.polls[ev.slot].fd == b.execs[b.polls[ev.slot].execData].fd0
  }

  ghost predicate LegalHandler(b: Books, ev: Event, h: Handler) {
    var e := Owner(b, ev.slot);
    e == null || HangsUp(b, ev) || e !in b.execs || !b.execs[e].live || LegalOps(b, e, h.ops)
  }

  /** What the loop does after the process call. */
  function AfterProcess(b: Books, e: ExecutorData, h: Handler, curMillis: int): Books {
    if e !in b.execs || h.result == Shutdown then b
    else if h.result == RemoveOk || h.result == RemoveError || h.retryCounter > MAX_RETRY_COUNTER then
      RemoveExecutorData(b, e)
    else b.(execs := b.execs[e := b.execs[e].(lastProcessTime := curMillis, retryCounter := h.retryCounter)])
  }

  ghost function DispatchOne(b: Books, ev: Event, h: Handler, curMillis: int): Batch
    requires LegalHandler(b, ev, h)
  {
    var owner := Owner(b, ev.slot);
    if owner == null then Batch(b, [], map[], false)
    else
      var e: ExecutorData := owner;
      var entry := Entry(ev.slot, e, b.polls[ev.slot].fd, e in b.execs);
      if e !in b.execs then Batch(b, [entry], map[], false)
      else if !b.execs[e].live then Batch(b, [], map[], false)
      else if HangsUp(b, ev) then Batch(RemoveExecutorData(b, e), [entry], map[], false)
      else Batch(AfterProcess(DoAll(b, e, h.ops), e, h, curMillis), [entry], RegistersAll(b, e, h.ops),
                 h.result == Shutdown)
  }

  ghost predicate LegalBatch(b: Books, evs: seq<Event>, hs: seq<Handler>, curMillis: int)
    decreases |evs|, 0
  {
    |hs| == |evs| && (evs == [] || (
      var n := |evs| - 1;
      && LegalBatch(b, evs[..n], hs[..n], curMillis)
      && var before := Dispatch(b, evs[..n], hs[..n], curMillis);
         before.stopped || LegalHandler(before.books, evs[n], hs[n])))
  }

  /** The loop's `for` over the events of one epoll_wait; it is left early on a shutdown. */
  ghost function Dispatch(b: Books, evs: seq<Event>, hs: seq<Handler>, curMillis: int): Batch
    requires LegalBatch(b, evs, hs, curMillis)
    decreases |evs|, 1
  {
    if evs == [] then Batch(b, [], map[], false)
    else
      var n := |evs| - 1;
      var before := Dispatch(b, evs[..n], hs[..n], curMillis);
      if before.stopped then before
      else
        var one := DispatchOne(before.books, evs[n], hs[n], curMillis);
        Batch(one.books, before.log + one.log, before.reg + one.reg, one.stopped)
  }

  lemma NothingDispatched(b: Books, curMillis: int)
    ensures LegalBatch(b, [], [], curMillis) && Dispatch(b, [], [], curMillis) == Batch(b, [], map[], false)
  {
  }

  lemma OneMoreEvent(b: Books, evs: seq<Event>, hs: seq<Handler>, ev: Event, h: Handler, curMillis: int)
    requires LegalBatch(b, evs, hs, curMillis)
    requires !Dispatch(b, evs, hs, curMillis).stopped
    requires LegalHandler(Dispatch(b, evs, hs, curMillis).books, ev, h)
    ensures LegalBatch(b, evs + [ev], hs + [h], curMillis)
    ensures var before := Dispatch(b, evs, hs, curMillis);
            var one := DispatchOne(before.books, ev, h, curMillis);
            Dispatch(b, evs + [ev], hs + [h], curMillis)
            == Batch(one.books, before.log + one.log, before.reg + one.reg, one.stopped)
  {
    hide LegalHandler, DispatchOne;
    assert (evs + [ev])[..|evs|] == evs && (hs + [h])[..|evs|] == hs;
  }

  lemma AfterProcessOk(b: Books, e: ExecutorData, h: Handler, curMillis: int)
    requires BooksOk(b) && e in b.execs
    ensures var b1 := AfterProcess(b, e, h, curMillis);
            BooksOk(b1) && forall p <- b1.polls :: p in b.polls && b1.polls[p] == b.polls[p]
  {
    hide BooksOk, RemoveExecutorData;
    RemoveExecutorOk(b, e);
    NotedKeepsOk(b, e, curMillis, h.retryCounter);
  }

  lemma NotedKeepsOk(b: Books, e: ExecutorData, curMillis: int, retryCounter: int)
    requires BooksOk(b) && e in b.execs
    ensures BooksOk(b.(execs := b.execs[e := b.execs[e].(lastProcessTime := curMillis, retryCounter := retryCounter)]))
  {
    hide Distinct, Elements;
    var b2 := b.(execs := b.execs[e := b.execs[e].(lastProcessTime := curMillis, retryCounter := retryCounter)]);
    forall p <- b2.polls ensures PollOk(b2, p) {
      assert PollOk(b, p);
    }
    forall x <- b2.execs ensures ExecOk(b2, x) {
      assert ExecOk(b, x);
    }
  }

  /** The slot is in use and its record has an executor. */
  predicate Awake(b: Books, p: PollData) {
    p in b.polls && b.polls[p].execData != null && b.polls[p].execData in b.execs && b.execs[b.polls[p].execData].live
  }

  lemma DispatchOneOk(b: Books, ev: Event, h: Handler, curMillis: int)
    requires BooksOk(b) && LegalHandler(b, ev, h)
    ensures var one := DispatchOne(b, ev, h, curMillis);
            && BooksOk(one.books)
            && (forall k :: 0 <= k < |one.log| ==>
                  one.log[k].inUse && one.log[k].slot in b.polls
                  && b.polls[one.log[k].slot] == PollRecord(one.log[k].fd, one.log[k].execData))
            && StandsFor(b, one.books, one.reg)
            && |one.log| <= 1 && (one.log != [] ==> one.log[0].slot == ev.slot)
            && (one.log != [] <==> Awake(b, ev.slot))
  {
    hide BooksOk, RemoveExecutorData, LegalOps, DoAll, RegistersAll, AfterProcess;
    var owner := Owner(b, ev.slot);
    if owner != null {
      var e: ExecutorData := owner;
      OwnerInUse(b, ev.slot);
      if b.execs[e].live {
        if HangsUp(b, ev) {
          RemoveExecutorOk(b, e);
        } else {
          DoAllOk(b, e, h.ops);
          AfterProcessOk(DoAll(b, e, h.ops), e, h, curMillis);
        }
      }
    }
  }

  lemma OwnerInUse(b: Books, p: PollData)
    requires BooksOk(b) && Owner(b, p) != null
    ensures p in b.polls && Owner(b, p) in b.execs
  {
    assert PollOk(b, p);
  }

  /** Dispatch safety. Whatever the handlers do to the books, no event is ever given to a connection
      that is not in use, the books stay in order, every slot stands for what was last registered for it, and
      every event whose slot was not registered again during the batch reaches the connection and the
      descriptor that the slot stood for when the batch was taken. */
  lemma {:induction false} BatchIsSafe(b: Books, evs: seq<Event>, hs: seq<Handler>, curMillis: int)
    requires BooksOk(b) && LegalBatch(b, evs, hs, curMillis)
    ensures var d := Dispatch(b, evs, hs, curMillis);
            && BooksOk(d.books)
            && (forall k :: 0 <= k < |d.log| ==> d.log[k].inUse)
            && (forall k :: 0 <= k < |d.log| && d.log[k].slot !in d.reg ==>
                  d.log[k].slot in b.polls && b.polls[d.log[k].slot] == PollRecord(d.log[k].fd, d.log[k].execData))
            && StandsFor(b, d.books, d.reg)
    decreases |evs|
  {
    hide BooksOk, DispatchOne, LegalHandler;
    if evs != [] {
      var n := |evs| - 1;
      BatchIsSafe(b, evs[..n], hs[..n], curMillis);
      var before := Dispatch(b, evs[..n], hs[..n], curMillis);
      if !before.stopped {
        DispatchOneOk(before.books, evs[n], hs[n], curMillis);
        var one := DispatchOne(before.books, evs[n], hs[n], curMillis);
        var log := before.log + one.log;
        forall k | 0 <= k < |log|
          ensures log[k].inUse
          ensures log[k].slot !in before.reg + one.reg ==>
                    log[k].slot in b.polls && b.polls[log[k].slot] == PollRecord(log[k].fd, log[k].execData)
        {
          if k >= |before.log| {
            assert log[k] == one.log[k - |before.log|];
          }
        }
      }
    }
  }

  lemma {:induction false} LegalPrefix(b: Books, evs: seq<Event>, hs: seq<Handler>, curMillis: int, k: nat)
    requires LegalBatch(b, evs, hs, curMillis) && k < |evs|
    ensures |hs| == |evs| && LegalBatch(b, evs[..k], hs[..k], curMillis)
    ensures var before := Dispatch(b, evs[..k], hs[..k], curMillis);
            before.stopped || LegalHandler(before.books, evs[k], hs[k])
    decreases |evs|
  {
    hide LegalHandler, DispatchOne;
    var n := |evs| - 1;
    if k < n {
      LegalPrefix(b, evs[..n], hs[..n], curMillis, k);
      assert evs[..n][..k] == evs[..k] && hs[..n][..k] == hs[..k];
    }
  }

  /** An event is misdirected: what its slot stood for when the batch was taken is not what an earlier event of
      the batch last registered for it. */
  predicate Misdirected(b: Books, reg: map<PollData, PollRecord>, p: PollData)
    requires p in b.polls
  {
    p in reg && reg[p] != b.polls[p]
  }

  /** Delivery, exactly, for each event of a batch. It is dispatched if and only if its slot is still in use and the
      record it leads to has an executor; and then it reaches the connection and the descriptor that its slot stood
      for when the batch was taken, if and only if no earlier event of the batch registered the slot for something
      else last. */
  lemma DeliveredExactly(b: Books, evs: seq<Event>, hs: seq<Handler>, curMillis: int, k: nat)
    requires BooksOk(b) && LegalBatch(b, evs, hs, curMillis) && k < |evs| && evs[k].slot in b.polls
    ensures LegalBatch(b, evs[..k], hs[..k], curMillis)
    ensures var before := Dispatch(b, evs[..k], hs[..k], curMillis);
            && (before.stopped || LegalHandler(before.books, evs[k], hs[k]))
            && (!before.stopped ==>
                  (DispatchOne(before.books, evs[k], hs[k], curMillis).log != [] <==> Awake(before.books, evs[k].slot)))
            && (!before.stopped && Awake(before.books, evs[k].slot) ==>
                  var entry := DispatchOne(before.books, evs[k], hs[k], curMillis).log[0];
                  && entry.slot == evs[k].slot && entry.inUse
                  && (PollRecord(entry.fd, entry.execData) == b.polls[evs[k].slot]
                      <==> !Misdirected(b, before.reg, evs[k].slot)))
  {
    hide BooksOk, DispatchOne, LegalHandler, LegalBatch, Dispatch, Awake;
    LegalPrefix(b, evs, hs, curMillis, k);
    BatchIsSafe(b, evs[..k], hs[..k], curMillis);
    var before := Dispatch(b, evs[..k], hs[..k], curMillis);
    if !before.stopped {
      DispatchOneOk(before.books, evs[k], hs[k], curMillis);
    }
  }

  // ---- Without that condition ----

  function ExecOn(fd0: int, fd1: int, p0: Item?<PollRecord>, p1: Item?<PollRecord>): ExecRecord {
    FreshExec().(live := true, fd0 := fd0, fd1 := fd1, pollData0 := p0, pollData1 := p1)
  }

  /** A listening socket (3) and a proxied connection with both of its sockets (5 and 6) registered. */
  function TwoConnections(es: ExecutorData, e1: ExecutorData, ps: PollData, p0: PollData, p1: PollData): Books {
    Books([e1, es], map[es := ExecOn(3, -1, ps, null), e1 := ExecOn(5, 6, p0, p1)],
          [p1, p0, ps], [], map[ps := PollRecord(3, es), p0 := PollRecord(5, e1), p1 := PollRecord(6, e1)],
          map[3 := ps, 5 := p0, 6 := p1], 3, [])
  }

  lemma TwoConnectionsListed(es: ExecutorData, e1: ExecutorData, ps: PollData, p0: PollData, p1: PollData)
    requires es != e1 && ps != p0 && ps != p1 && p0 != p1
    ensures ListsOk(TwoConnections(es, e1, ps, p0, p1))
  {
    hide ExecOk, PollOk;
    ElementsCons(e1, [es]);
    ElementsCons(es, []);
    assert [e1] + [es] == [e1, es] && [es] + [] == [es];
    ElementsCons(p1, [p0, ps]);
    ElementsCons(p0, [ps]);
    ElementsCons(ps, []);
    assert [p1] + [p0, ps] == [p1, p0, ps] && [p0] + [ps] == [p0, ps] && [ps] + [] == [ps];
    assert Elements<ExecutorData>([]) == {} && Elements<PollData>([]) == {};
  }

  lemma TwoConnectionsOk(es: ExecutorData, e1: ExecutorData, ps: PollData, p0: PollData, p1: PollData)
    requires es != e1 && ps != p0 && ps != p1 && p0 != p1
    ensures BooksOk(TwoConnections(es, e1, ps, p0, p1))
  {
    hide ListsOk;
    TwoConnectionsListed(es, e1, ps, p0, p1);
  }

  /** After the hang-up only the listening socket is left, and the freed slots wait newest first. */
  function OnlyListening(es: ExecutorData, ps: PollData, p0: PollData, p1: PollData): Books {
    Books([es], map[es := ExecOn(3, -1, ps, null)], [ps], [p1, p0], map[ps := PollRecord(3, es)],
          map[3 := ps], 1, [5, 6])
  }

  /** The client's descriptor has been unregistered, the upstream's not yet. */
  function HalfUnregistered(es: ExecutorData, e1: ExecutorData, ps: PollData, p0: PollData, p1: PollData): Books {
    Books([e1, es], map[es := ExecOn(3, -1, ps, null), e1 := ExecOn(5, 6, null, p1)],
          [p1, ps], [p0], map[ps := PollRecord(3, es), p1 := PollRecord(6, e1)],
          map[3 := ps, 6 := p1], 2, [])
  }

  lemma FirstUnregistered(es: ExecutorData, e1: ExecutorData, ps: PollData, p0: PollData, p1: PollData)
    requires es != e1 && ps != p0 && ps != p1 && p0 != p1
    ensures RemovePollFd(TwoConnections(es, e1, ps, p0, p1), e1, 5, true)
            == Answer(true, HalfUnregistered(es, e1, ps, p0, p1))
  {
    assert [p1, p0, ps][1..] == [p0, ps] && [p0, ps][1..] == [ps];
    assert Without([p1, p0, ps], p0) == [p1, ps];
  }

  lemma SecondUnregistered(es: ExecutorData, e1: ExecutorData, ps: PollData, p0: PollData, p1: PollData)
    requires es != e1 && ps != p0 && ps != p1 && p0 != p1
    ensures var b := OnlyListening(es, ps, p0, p1);
            RemovePollFd(HalfUnregistered(es, e1, ps, p0, p1), e1, 6, true)
            == Answer(true, b.(usedExecs := [e1, es], execs := b.execs[e1 := ExecOn(5, 6, null, null)], closed := []))
  {
    assert [p1, ps][1..] == [ps];
    assert Without([p1, ps], p1) == [ps];
  }

  lemma AfterHangup(es: ExecutorData, e1: ExecutorData, ps: PollData, p0: PollData, p1: PollData)
    requires es != e1 && ps != p0 && ps != p1 && p0 != p1
    ensures RemoveExecutorData(TwoConnections(es, e1, ps, p0, p1), e1) == OnlyListening(es, ps, p0, p1)
  {
    hide RemovePollFd;
    FirstUnregistered(es, e1, ps, p0, p1);
    SecondUnregistered(es, e1, ps, p0, p1);
    assert [e1, es][1..] == [es];
    assert Without([e1, es], e1) == [es];
    assert ClosedByDown(ExecOn(5, 6, p0, p1)) == [5, 6];
  }

  function Accepted(es: ExecutorData, e1: ExecutorData, ps: PollData, p0: PollData, p1: PollData): Books {
    var b := OnlyListening(es, ps, p0, p1);
    CreateRequestExecutor(b, e1, 7, 0, true, []).books
  }

  lemma AfterAccept(es: ExecutorData, e1: ExecutorData, ps: PollData, p0: PollData, p1: PollData)
    requires es != e1 && ps != p0 && ps != p1 && p0 != p1
    ensures var b, b2 := OnlyListening(es, ps, p0, p1), Accepted(es, e1, ps, p0, p1);
            && CreateRequestExecutor(b, e1, 7, 0, true, []).ok
            && e1 in b2.execs && b2.execs[e1] == ExecOn(7, -1, p1, null)
            && es in b2.execs && b2.execs[es] == b.execs[es]
            && p1 in b2.polls && b2.polls[p1] == PollRecord(7, e1)
  {
  }

  lemma NothingIsLegal(b: Books, e: ExecutorData)
    requires e in b.execs
    ensures LegalOps(b, e, [])
  {
  }

  /** The listening socket's event hands the freed slot to a new client. */
  lemma AcceptDispatched(es: ExecutorData, e1: ExecutorData, ps: PollData, p0: PollData, p1: PollData)
    requires es != e1 && ps != p0 && ps != p1 && p0 != p1
    ensures var b1, ev := OnlyListening(es, ps, p0, p1), Event(ps, false);
            var accept := Handler([Spawn(e1, 7, 0, true, [])], Proceed, 0);
            && LegalHandler(b1, ev, accept)
            && var two := DispatchOne(b1, ev, accept, 0);
               && !two.stopped && |two.log| == 1
               && p1 in two.books.polls && two.books.polls[p1] == PollRecord(7, e1)
               && e1 in two.books.execs && two.books.execs[e1].live
               && two.books.execs[e1].fd0 == 7
  {
    hide RemoveExecutorData, CreateRequestExecutor;
    AfterAccept(es, e1, ps, p0, p1);
    var b1, b2, spawn := OnlyListening(es, ps, p0, p1), Accepted(es, e1, ps, p0, p1), Spawn(e1, 7, 0, true, []);
    assert LegalOp(b1, es, spawn) && Do(b1, es, spawn) == b2;
    assert [spawn][..0] == [];
    assert LegalOps(b1, es, []) && DoAll(b1, es, []) == b1;
    assert LegalOps(b1, es, [spawn]) && DoAll(b1, es, [spawn]) == b2;
  }

  /** The client hangs up, then a new client (7) is accepted, then the upstream's event is due: its slot
      has been handed to the new client, which receives an event of the closed connection's descriptor (6). */
  lemma ReusedSlotIsMisdelivered(es: ExecutorData, e1: ExecutorData, ps: PollData, p0: PollData, p1: PollData)
    requires es != e1 && ps != p0 && ps != p1 && p0 != p1
    ensures var b := TwoConnections(es, e1, ps, p0, p1);
            var evs := [Event(p0, true), Event(ps, false), Event(p1, false)];
            exists hs :: BooksOk(b) && LegalBatch(b, evs, hs, 0) && |Dispatch(b, evs, hs, 0).log| == 3
              && Dispatch(b, evs, hs, 0).log[2].slot == p1 && Dispatch(b, evs, hs, 0).log[2].fd == 7
  {
    hide RemoveExecutorData, CreateRequestExecutor, Do, LegalOp, LegalOps, DoAll, BooksOk, LegalBatch, Dispatch;
    var b := TwoConnections(es, e1, ps, p0, p1);
    TwoConnectionsOk(es, e1, ps, p0, p1);
    var evs := [Event(p0, true), Event(ps, false), Event(p1, false)];
    var idle := Handler([], Proceed, 0);
    var spawn := Spawn(e1, 7, 0, true, []);
    var accept := Handler([spawn], Proceed, 0);
    var hs := [idle, accept, idle];

    AfterHangup(es, e1, ps, p0, p1);
    var b1 := OnlyListening(es, ps, p0, p1);
    assert LegalHandler(b, evs[0], idle);
    assert DispatchOne(b, evs[0], idle, 0) == Batch(b1, [Entry(p0, e1, 5, true)], map[], false);

    AcceptDispatched(es, e1, ps, p0, p1);
    var b3 := DispatchOne(b1, evs[1], accept, 0).books;

    NothingIsLegal(b3, e1);
    assert LegalHandler(b3, evs[2], idle);
    var three := DispatchOne(b3, evs[2], idle, 0);
    assert three.log == [Entry(p1, e1, 7, true)] && !three.stopped;
    JoinBatch(b, b1, b3, evs, hs);
  }

  lemma JoinBatch(b: Books, b1: Books, b2: Books, evs: seq<Event>, hs: seq<Handler>)
    requires |evs| == |hs| == 3
    requires LegalHandler(b, evs[0], hs[0]) && !DispatchOne(b, evs[0], hs[0], 0).stopped
    requires DispatchOne(b, evs[0], hs[0], 0).books == b1 && |DispatchOne(b, evs[0], hs[0], 0).log| == 1
    requires LegalHandler(b1, evs[1], hs[1]) && !DispatchOne(b1, evs[1], hs[1], 0).stopped
    requires DispatchOne(b1, evs[1], hs[1], 0).books == b2 && |DispatchOne(b1, evs[1], hs[1], 0).log| == 1
    requires LegalHandler(b2, evs[2], hs[2]) && !DispatchOne(b2, evs[2], hs[2], 0).stopped
    requires |DispatchOne(b2, evs[2], hs[2], 0).log| == 1
    ensures LegalBatch(b, evs, hs, 0) && |Dispatch(b, evs, hs, 0).log| == 3
    ensures Dispatch(b, evs, hs, 0).log[2] == DispatchOne(b2, evs[2], hs[2], 0).log[0]
  {
    hide LegalHandler, DispatchOne, Dispatch, LegalBatch;
    assert [] + [evs[0]] == [evs[0]] && [] + [hs[0]] == [hs[0]];
    assert [evs[0]] + [evs[1]] == [evs[0], evs[1]] && [hs[0]] + [hs[1]] == [hs[0], hs[1]];
    assert [evs[0], evs[1]] + [evs[2]] == evs && [hs[0], hs[1]] + [hs[2]] == hs;
    NothingDispatched(b, 0);
    OneMoreEvent(b, [], [], evs[0], hs[0], 0);
    OneMoreEvent(b, [evs[0]], [hs[0]], evs[1], hs[1], 0);
    OneMoreEvent(b, [evs[0], evs[1]], [hs[0], hs[1]], evs[2], hs[2], 0);
  }
}
