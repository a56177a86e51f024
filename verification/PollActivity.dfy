/** How long a connection lives in the poll loop: what an event does to the record it is given to, which times a batch
    leaves behind, and what the timeout sweep makes of them (src/PollLoop.cpp). */
module PollActivity {
  import opened BlockStorage
  import opened ExecutorLimits
  import opened PollBooks
  import opened PollRuns
  import opened ProcessResults
  import Registrations

  // ---- One event ----

  /** The event's slot leads to this record, and the record has an executor. */
  predicate GivenTo(b: Books, ev: Event, e: ExecutorData) {
    ev.slot in b.polls && b.polls[ev.slot].execData == e && e in b.execs && b.execs[e].live
  }

  /** The client's descriptor, not the upstream's, was reported as hung up. */
  predicate ClientHungUp(b: Books, ev: Event, e: ExecutorData)
    requires GivenTo(b, ev, e)
  {
    ev.hangup && b.polls[ev.slot].fd == b.execs[e].fd0
  }

  /** The record is processed, and its connection goes on. */
  predicate Serves(b: Books, ev: Event, h: Handler, e: ExecutorData) {
    GivenTo(b, ev, e) && !ClientHungUp(b, ev, e) && h.result == Proceed && h.retryCounter <= MAX_RETRY_COUNTER
  }

  /** The record's connection ends: its client hung up, its executor is done or has failed, or it has tried too often.
      */
  predicate Ends(b: Books, ev: Event, h: Handler, e: ExecutorData) {
    GivenTo(b, ev, e) &&
    (ClientHungUp(b, ev, e) || h.result == RemoveOk || h.result == RemoveError
     || (h.result == Proceed && h.retryCounter > MAX_RETRY_COUNTER))
  }

  /** What a handler's requests leave alone in its own record. */
  predicate SameTimes(r: ExecRecord, r1: ExecRecord) {
    && r1.createTime == r.createTime && r1.lastProcessTime == r.lastProcessTime
    && r1.removeOnTimeout == r.removeOnTimeout && r1.retryCounter == r.retryCounter
  }

  lemma OwnTimes(b: Books, e: ExecutorData, op: LoopOp)
    requires BooksOk(b) && e in b.execs && LegalOp(b, e, op)
    ensures e in Do(b, e, op).execs && SameTimes(b.execs[e], Do(b, e, op).execs[e])
  {
    hide BooksOk, CanAllocate, RemoveExecutorData, CreateRequestExecutor, Without, FreeSlots;
    match op
    case Close(fd) =>
      if SlotFor(b.execs[e], fd) != null {
        RemovedRecord(b, e, fd);
      }
    case Spawn(e2, fd, curMillis, epollOk, block) =>
      Registrations.SpawnLeaves(b, e, e2, fd, curMillis, epollOk, block);
    case _ =>
  }

  lemma {:induction false} AllTimes(b: Books, e: ExecutorData, ops: seq<LoopOp>, x: ExecutorData)
    requires BooksOk(b) && e in b.execs && x in b.execs && LegalOps(b, e, ops)
    ensures BooksOk(DoAll(b, e, ops)) && e in DoAll(b, e, ops).execs && x in DoAll(b, e, ops).execs
    ensures SameTimes(b.execs[x], DoAll(b, e, ops).execs[x])
    ensures x != e ==> DoAll(b, e, ops).execs[x] == b.execs[x]
    decreases |ops|
  {
    hide BooksOk, Do, LegalOp;
    if ops != [] {
      var n := |ops| - 1;
      AllTimes(b, e, ops[..n], x);
      var b1 := DoAll(b, e, ops[..n]);
      DoOk(b1, e, ops[n]);
      if x == e {
        OwnTimes(b1, e, ops[n]);
      } else {
        Registrations.OthersLeave(b1, x, e, ops[n]);
      }
    }
  }

  /** What one event does to a record in use. The event that ends its connection takes it out of use. The event that is
      served stamps it with the time of the batch and the executor's counter. Any other event leaves it as it was. Its
      time of creation and whether it times out never change. */
  lemma OneEvent(b: Books, ev: Event, h: Handler, curMillis: int, e: ExecutorData)
    requires BooksOk(b) && LegalHandler(b, ev, h) && e in b.execs
    ensures var b1 := DispatchOne(b, ev, h, curMillis).books;
            && BooksOk(b1)
            && (e in b1.execs <==> !Ends(b, ev, h, e))
            && (e in b1.execs ==>
                  var r, r1 := b.execs[e], b1.execs[e];
                  && r1.createTime == r.createTime && r1.removeOnTimeout == r.removeOnTimeout
                  && r1.lastProcessTime == (if Serves(b, ev, h, e) then curMillis else r.lastProcessTime)
                  && r1.retryCounter == (if Serves(b, ev, h, e) then h.retryCounter else r.retryCounter)
                  && (!GivenTo(b, ev, e) ==> r1 == r))
  {
    hide BooksOk, RemoveExecutorData, LegalOps, DoAll, RegistersAll, AfterProcess, SameTimes;
    DispatchOneOk(b, ev, h, curMillis);
    var owner := Owner(b, ev.slot);
    if owner != null {
      var o: ExecutorData := owner;
      OwnerInUse(b, ev.slot);
      if b.execs[o].live {
        if HangsUp(b, ev) {
          RemoveExecutorOk(b, o);
        } else {
          AllTimes(b, o, h.ops, e);
          Concluded(DoAll(b, o, h.ops), o, h, curMillis, e);
          TimesAgree(b.execs[e], DoAll(b, o, h.ops).execs[e]);
        }
      }
    }
  }

  lemma TimesAgree(r: ExecRecord, r1: ExecRecord)
    requires SameTimes(r, r1)
    ensures r1.createTime == r.createTime && r1.lastProcessTime == r.lastProcessTime
    ensures r1.removeOnTimeout == r.removeOnTimeout && r1.retryCounter == r.retryCounter
  {
  }

  lemma Concluded(b: Books, o: ExecutorData, h: Handler, curMillis: int, e: ExecutorData)
    requires BooksOk(b) && o in b.execs && e in b.execs
    ensures var b1 := AfterProcess(b, o, h, curMillis);
            var goes := h.result == RemoveOk || h.result == RemoveError
                        || (h.result == Proceed && h.retryCounter > MAX_RETRY_COUNTER);
            && (e in b1.execs <==> !(o == e && goes))
            && (e != o ==> b1.execs[e] == b.execs[e])
            && (e == o && !goes ==>
                  b1.execs[e] == if h.result == Shutdown then b.execs[e]
                                 else b.execs[e].(lastProcessTime := curMillis, retryCounter := h.retryCounter))
  {
    hide BooksOk, RemoveExecutorData;
    RemoveExecutorOk(b, o);
  }

  // ---- One batch ----

  /** The batch in front of its event `k`. */
  ghost function Before(b: Books, evs: seq<Event>, hs: seq<Handler>, curMillis: int, k: nat): Batch
    requires LegalBatch(b, evs, hs, curMillis) && k < |evs|
  {
    LegalPrefix(b, evs, hs, curMillis, k);
    Dispatch(b, evs[..k], hs[..k], curMillis)
  }

  ghost predicate ServedBy(b: Books, evs: seq<Event>, hs: seq<Handler>, curMillis: int, e: ExecutorData, k: nat)
    requires LegalBatch(b, evs, hs, curMillis) && k < |evs|
  {
    var before := Before(b, evs, hs, curMillis, k);
    !before.stopped && Serves(before.books, evs[k], hs[k], e)
  }

  ghost predicate EndedBy(b: Books, evs: seq<Event>, hs: seq<Handler>, curMillis: int, e: ExecutorData, k: nat)
    requires LegalBatch(b, evs, hs, curMillis) && k < |evs|
  {
    var before := Before(b, evs, hs, curMillis, k);
    !before.stopped && Ends(before.books, evs[k], hs[k], e)
  }

  ghost predicate NeverEnded(b: Books, evs: seq<Event>, hs: seq<Handler>, curMillis: int, e: ExecutorData)
    requires LegalBatch(b, evs, hs, curMillis)
  {
    forall k :: 0 <= k < |evs| ==> !EndedBy(b, evs, hs, curMillis, e, k)
  }

  /** The last event of the batch that was served by the record, or -1. */
  ghost function LastServed(b: Books, evs: seq<Event>, hs: seq<Handler>, curMillis: int, e: ExecutorData): (l: int)
    requires LegalBatch(b, evs, hs, curMillis)
    ensures -1 <= l < |evs|
    decreases |evs|
  {
    if evs == [] then -1
    else
      var n := |evs| - 1;
      if ServedBy(b, evs, hs, curMillis, e, n) then n else LastServed(b, evs[..n], hs[..n], curMillis, e)
  }

  lemma WithoutLast(b: Books, evs: seq<Event>, hs: seq<Handler>, curMillis: int, e: ExecutorData, k: nat)
    requires LegalBatch(b, evs, hs, curMillis) && k + 1 < |evs|
    ensures var n := |evs| - 1;
            && LegalBatch(b, evs[..n], hs[..n], curMillis)
            && (ServedBy(b, evs[..n], hs[..n], curMillis, e, k) <==> ServedBy(b, evs, hs, curMillis, e, k))
            && (EndedBy(b, evs[..n], hs[..n], curMillis, e, k) <==> EndedBy(b, evs, hs, curMillis, e, k))
  {
    hide Dispatch, Serves, Ends, LegalHandler;
    var n := |evs| - 1;
    assert evs[..n][..k] == evs[..k] && hs[..n][..k] == hs[..k];
  }

  /** It is what its name says. */
  lemma {:induction false} LastServedIs(b: Books, evs: seq<Event>, hs: seq<Handler>, curMillis: int, e: ExecutorData,
                                        k: nat)
    requires LegalBatch(b, evs, hs, curMillis) && k < |evs|
    ensures var l := LastServed(b, evs, hs, curMillis, e);
            && (k == l ==> ServedBy(b, evs, hs, curMillis, e, k))
            && (ServedBy(b, evs, hs, curMillis, e, k) ==> k <= l)
    decreases |evs|
  {
    hide Dispatch, ServedBy, LegalHandler;
    var n := |evs| - 1;
    if k < n {
      WithoutLast(b, evs, hs, curMillis, e, k);
      LastServedIs(b, evs[..n], hs[..n], curMillis, e, k);
    }
  }

  /** What a batch leaves behind of a record whose connection it does not end: the record is in use; if any event was
      served by it, it has the time of the batch and the counter of the last of them, and otherwise its old ones; and
      its time of creation and whether it times out are as before. */
  ghost predicate BatchLeaves(b: Books, evs: seq<Event>, hs: seq<Handler>, curMillis: int, e: ExecutorData)
    requires LegalBatch(b, evs, hs, curMillis) && e in b.execs
  {
    var b1, l := Dispatch(b, evs, hs, curMillis).books, LastServed(b, evs, hs, curMillis, e);
    && BooksOk(b1) && e in b1.execs
    && var r, r1 := b.execs[e], b1.execs[e];
       && r1.createTime == r.createTime && r1.removeOnTimeout == r.removeOnTimeout
       && r1.lastProcessTime == (if l >= 0 then curMillis else r.lastProcessTime)
       && r1.retryCounter == (if l >= 0 then hs[l].retryCounter else r.retryCounter)
  }

  lemma {:induction false} BatchTimes(b: Books, evs: seq<Event>, hs: seq<Handler>, curMillis: int, e: ExecutorData)
    requires BooksOk(b) && LegalBatch(b, evs, hs, curMillis) && e in b.execs && NeverEnded(b, evs, hs, curMillis, e)
    ensures BatchLeaves(b, evs, hs, curMillis, e)
    decreases |evs|
  {
    hide BooksOk, DispatchOne, LegalHandler, Serves, Ends;
    if evs != [] {
      var n := |evs| - 1;
      NotEndedBefore(b, evs, hs, curMillis, e);
      BatchTimes(b, evs[..n], hs[..n], curMillis, e);
      LastEvent(b, evs, hs, curMillis, e);
    }
  }

  lemma NotEndedBefore(b: Books, evs: seq<Event>, hs: seq<Handler>, curMillis: int, e: ExecutorData)
    requires LegalBatch(b, evs, hs, curMillis) && evs != [] && NeverEnded(b, evs, hs, curMillis, e)
    ensures var n := |evs| - 1;
            && LegalBatch(b, evs[..n], hs[..n], curMillis) && NeverEnded(b, evs[..n], hs[..n], curMillis, e)
            && !EndedBy(b, evs, hs, curMillis, e, n)
  {
    hide Dispatch, LegalHandler, EndedBy, ServedBy;
    var n := |evs| - 1;
    assert !EndedBy(b, evs, hs, curMillis, e, n);
    forall k | 0 <= k < n ensures !EndedBy(b, evs[..n], hs[..n], curMillis, e, k) {
      assert !EndedBy(b, evs, hs, curMillis, e, k);
      WithoutLast(b, evs, hs, curMillis, e, k);
    }
  }

  lemma LastEvent(b: Books, evs: seq<Event>, hs: seq<Handler>, curMillis: int, e: ExecutorData)
    requires LegalBatch(b, evs, hs, curMillis) && e in b.execs && evs != []
    requires !EndedBy(b, evs, hs, curMillis, e, |evs| - 1)
    requires var n := |evs| - 1;
             LegalBatch(b, evs[..n], hs[..n], curMillis) && BatchLeaves(b, evs[..n], hs[..n], curMillis, e)
    ensures BatchLeaves(b, evs, hs, curMillis, e)
  {
    hide BooksOk, DispatchOne, LegalHandler, Serves, Ends;
    var n := |evs| - 1;
    var before := Dispatch(b, evs[..n], hs[..n], curMillis);
    if !before.stopped {
      OneEvent(before.books, evs[n], hs[n], curMillis, e);
    }
  }

  // ---- The sweep behind it ----

  /** Active no longer ago than the timeout, and at most thirty minutes old. */
  predicate Spared(lastActive: int, createTime: int, at: int, timeoutMillis: int) {
    at - lastActive <= timeoutMillis && at - createTime <= 1800000
  }

  /** A record that times out is still there after a sweep if and only if it was active recently, be it by an event
      that it served in the batch before, and is not too old: a connection that is served is not cut off, and one that
      is idle goes with the first sweep behind its timeout. A record that does not time out always stays. */
  lemma BatchThenSweep(b: Books, evs: seq<Event>, hs: seq<Handler>, curMillis: int, e: ExecutorData, at: int,
                       timeoutMillis: int)
    requires BooksOk(b) && LegalBatch(b, evs, hs, curMillis) && e in b.execs && NeverEnded(b, evs, hs, curMillis, e)
    ensures var d := Dispatch(b, evs, hs, curMillis).books;
            var lastActive := if LastServed(b, evs, hs, curMillis, e) >= 0 then curMillis
                              else b.execs[e].lastProcessTime;
            && Elements(d.usedExecs) <= d.execs.Keys
            && (e in CheckTimeout(d, at, timeoutMillis).execs <==>
                  !b.execs[e].removeOnTimeout || Spared(lastActive, b.execs[e].createTime, at, timeoutMillis))
  {
    hide BooksOk, Dispatch, LegalBatch, NeverEnded, LastServed, CheckTimeout;
    BatchTimes(b, evs, hs, curMillis, e);
    SweepExactly(Dispatch(b, evs, hs, curMillis).books, at, timeoutMillis);
  }

  /** A descriptor that is accepted at a time gets a record that was created and active at that time and times out. */
  lemma AcceptedTimes(b: Books, e: ExecutorData, fd: int, curMillis: int, block: seq<PollData>)
    requires BooksOk(b) && e !in b.execs && CanAllocate(b, block) && fd > 0 && fd !in b.interest
    ensures var b1 := CreateRequestExecutor(b, e, fd, curMillis, true, block).books;
            && e in b1.execs && b1.execs[e].createTime == curMillis && b1.execs[e].lastProcessTime == curMillis
            && b1.execs[e].removeOnTimeout && b1.execs[e].retryCounter == 0 && b1.execs[e].live
            && b1.execs[e].fd0 == fd
  {
    hide BooksOk, CanAllocate, RemoveExecutorData;
  }

  // ---- Rounds of the loop ----

  /** The loop between two rounds. */
  datatype Server = Server(books: Books, lastCheck: int)

  /** The events of one epoll_wait and the time at which it returned. */
  datatype Round = Round(evs: seq<Event>, hs: seq<Handler>, at: int)

  /** A batch, and a sweep if none has been made for the length of the timeout. */
  ghost function AfterRound(s: Server, r: Round, timeoutMillis: int): Server
    requires BooksOk(s.books) && LegalBatch(s.books, r.evs, r.hs, r.at)
  {
    BatchIsSafe(s.books, r.evs, r.hs, r.at);
    var d := Dispatch(s.books, r.evs, r.hs, r.at);
    if !d.stopped && r.at - s.lastCheck >= timeoutMillis then
      UsedAreDistinct(d.books);
      Server(CheckTimeout(d.books, r.at, timeoutMillis), r.at)
    else Server(d.books, s.lastCheck)
  }

  /** A record that the last sweep would spare. */
  predicate Young(r: ExecRecord, lastCheck: int, timeoutMillis: int) {
    r.removeOnTimeout ==> Spared(r.lastProcessTime, r.createTime, lastCheck, timeoutMillis)
  }

  ghost predicate AllYoung(b: Books, lastCheck: int, timeoutMillis: int) {
    forall e <- b.execs :: Young(b.execs[e], lastCheck, timeoutMillis)
  }

  /** Clocks do not run backwards: what handlers accept is accepted behind the last sweep. */
  predicate SpawnsSince(ops: seq<LoopOp>, time: int) {
    forall i :: 0 <= i < |ops| && ops[i].Spawn? ==> ops[i].curMillis >= time
  }

  lemma SpawnYoung(b: Books, e: ExecutorData, fd: int, curMillis: int, epollOk: bool, block: seq<PollData>, s: int,
                   timeoutMillis: int)
    requires BooksOk(b) && e !in b.execs && CanAllocate(b, block) && fd > 0 && (epollOk ==> fd !in b.interest)
    requires AllYoung(b, s, timeoutMillis) && curMillis >= s && timeoutMillis >= 0
    ensures AllYoung(CreateRequestExecutor(b, e, fd, curMillis, epollOk, block).books, s, timeoutMillis)
  {
    hide BooksOk, CanAllocate, FreeSlots, RemoveExecutorData, Without;
    CreateOk(b, e, curMillis);
    var b1 := Create(b, e, curMillis);
    FdAssigned(b1, e, fd);
    var b2 := b1.(execs := b1.execs[e := b1.execs[e].(fd0 := fd)]);
    SameSlots(b, b2, block);
    AddOk(b2, e, fd, epollOk, block);
    var a := AddPollFd(b2, e, fd, epollOk, block);
    if !a.ok {
      RemoveExecutorOk(a.books, e);
    }
  }

  lemma DoYoung(b: Books, e: ExecutorData, op: LoopOp, s: int, timeoutMillis: int)
    requires BooksOk(b) && e in b.execs && LegalOp(b, e, op) && AllYoung(b, s, timeoutMillis) && timeoutMillis >= 0
    requires op.Spawn? ==> op.curMillis >= s
    ensures AllYoung(Do(b, e, op), s, timeoutMillis)
  {
    hide BooksOk, CanAllocate, RemoveExecutorData, CreateRequestExecutor, Without, FreeSlots, Young;
    if op.Spawn? {
      SpawnYoung(b, op.e, op.fd, op.curMillis, op.epollOk, op.block, s, timeoutMillis);
    } else {
      OnlyOwn(b, e, op);
      forall x <- Do(b, e, op).execs ensures Young(Do(b, e, op).execs[x], s, timeoutMillis) {
        if x == e {
          OwnTimes(b, e, op);
          SameYouth(b.execs[e], Do(b, e, op).execs[e], s, timeoutMillis);
        } else {
          Registrations.OthersLeave(b, x, e, op);
        }
      }
    }
  }

  lemma SameYouth(r: ExecRecord, r1: ExecRecord, s: int, timeoutMillis: int)
    requires SameTimes(r, r1) && Young(r, s, timeoutMillis)
    ensures Young(r1, s, timeoutMillis)
  {
  }

  /** Only an accepted descriptor brings a new record. */
  lemma OnlyOwn(b: Books, e: ExecutorData, op: LoopOp)
    requires BooksOk(b) && e in b.execs && LegalOp(b, e, op) && !op.Spawn?
    ensures Do(b, e, op).execs.Keys == b.execs.Keys
  {
    hide BooksOk, CanAllocate, FreeSlots, Without;
    match op
    case Close(fd) =>
      if SlotFor(b.execs[e], fd) != null {
        RemovedRecord(b, e, fd);
      }
    case _ =>
  }

  lemma {:induction false} DoAllYoung(b: Books, e: ExecutorData, ops: seq<LoopOp>, s: int, timeoutMillis: int)
    requires BooksOk(b) && e in b.execs && LegalOps(b, e, ops) && AllYoung(b, s, timeoutMillis) && timeoutMillis >= 0
    requires SpawnsSince(ops, s)
    ensures AllYoung(DoAll(b, e, ops), s, timeoutMillis)
    decreases |ops|
  {
    hide BooksOk, Do, LegalOp, AllYoung;
    if ops != [] {
      var n := |ops| - 1;
      AllTimes(b, e, ops[..n], e);
      DoAllYoung(b, e, ops[..n], s, timeoutMillis);
      DoYoung(DoAll(b, e, ops[..n]), e, ops[n], s, timeoutMillis);
    }
  }

  lemma EventYoung(b: Books, ev: Event, h: Handler, curMillis: int, s: int, timeoutMillis: int)
    requires BooksOk(b) && LegalHandler(b, ev, h) && AllYoung(b, s, timeoutMillis) && timeoutMillis >= 0
    requires SpawnsSince(h.ops, s) && curMillis >= s
    ensures AllYoung(DispatchOne(b, ev, h, curMillis).books, s, timeoutMillis)
  {
    hide BooksOk, RemoveExecutorData, LegalOps, DoAll, RegistersAll, SpawnsSince;
    var owner := Owner(b, ev.slot);
    if owner != null {
      var o: ExecutorData := owner;
      OwnerInUse(b, ev.slot);
      if b.execs[o].live {
        if HangsUp(b, ev) {
          RemoveExecutorOk(b, o);
        } else {
          AllTimes(b, o, h.ops, o);
          DoAllYoung(b, o, h.ops, s, timeoutMillis);
          RemoveExecutorOk(DoAll(b, o, h.ops), o);
        }
      }
    }
  }

  lemma {:induction false} BatchYoung(b: Books, evs: seq<Event>, hs: seq<Handler>, curMillis: int, s: int,
                                      timeoutMillis: int)
    requires BooksOk(b) && LegalBatch(b, evs, hs, curMillis) && AllYoung(b, s, timeoutMillis) && timeoutMillis >= 0
    requires curMillis >= s && forall i :: 0 <= i < |hs| ==> SpawnsSince(hs[i].ops, s)
    ensures AllYoung(Dispatch(b, evs, hs, curMillis).books, s, timeoutMillis)
    decreases |evs|
  {
    hide BooksOk, DispatchOne, LegalHandler, AllYoung, SpawnsSince;
    if evs != [] {
      var n := |evs| - 1;
      LegalPrefix(b, evs, hs, curMillis, n);
      BatchYoung(b, evs[..n], hs[..n], curMillis, s, timeoutMillis);
      BatchIsSafe(b, evs[..n], hs[..n], curMillis);
      var before := Dispatch(b, evs[..n], hs[..n], curMillis);
      if !before.stopped {
        EventYoung(before.books, evs[n], hs[n], curMillis, s, timeoutMillis);
      }
    }
  }

  /** Whatever a round brings: the books stay in order, whatever the last sweep would spare is what is left, and so
      behind every round no connection that times out has been idle for twice the timeout or is older than thirty
      minutes and the timeout. */
  lemma IdleIsBounded(s: Server, r: Round, timeoutMillis: int)
    requires BooksOk(s.books) && LegalBatch(s.books, r.evs, r.hs, r.at) && timeoutMillis > 0
    requires AllYoung(s.books, s.lastCheck, timeoutMillis) && r.at >= s.lastCheck
    requires forall i :: 0 <= i < |r.hs| ==> SpawnsSince(r.hs[i].ops, s.lastCheck)
    ensures var s1 := AfterRound(s, r, timeoutMillis);
            && BooksOk(s1.books) && s1.lastCheck <= r.at && AllYoung(s1.books, s1.lastCheck, timeoutMillis)
            && (!Dispatch(s.books, r.evs, r.hs, r.at).stopped ==>
                  forall e <- s1.books.execs :: s1.books.execs[e].removeOnTimeout ==>
                    && r.at - s1.books.execs[e].lastProcessTime < 2 * timeoutMillis
                    && r.at - s1.books.execs[e].createTime < 1800000 + timeoutMillis)
  {
    hide BooksOk, Dispatch, LegalBatch, CheckTimeout, SpawnsSince;
    BatchIsSafe(s.books, r.evs, r.hs, r.at);
    BatchYoung(s.books, r.evs, r.hs, r.at, s.lastCheck, timeoutMillis);
    SweepExactly(Dispatch(s.books, r.evs, r.hs, r.at).books, r.at, timeoutMillis);
  }
}
