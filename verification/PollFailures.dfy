/** What becomes of the poll loop's books when the kernel does not forget a descriptor that it is told to forget
    (src/PollLoop.cpp): closeFd and removeExecutorData go on without looking at the answer. */
module PollFailures {
  import opened BlockStorage
  import opened PollBooks

  /** closeFd, for any answer to the removal. */
  function CloseFdFor(b: Books, e: ExecutorData, fd: int, epollOk: bool): Answer
    requires e in b.execs
  {
    var r := b.execs[e];
    if fd != r.fd0 && fd != r.fd1 then Answer(false, b)
    else
      var b1 := if SlotFor(r, fd) != null then RemovePollFd(b, e, fd, epollOk).books else b;
      if e !in b1.execs then Answer(false, b1)
      else
        var r1 := b1.execs[e];
        Answer(true, b1.(closed := b1.closed + [fd],
                         execs := b1.execs[e := if fd == r.fd0 then r1.(fd0 := -1) else r1.(fd1 := -1)]))
  }

  /** removeExecutorData, for any answers to its two removals. */
  function RemoveExecutorDataFor(b: Books, e: ExecutorData, ok0: bool, ok1: bool): Books
    requires e in b.execs
  {
    var r := b.execs[e];
    var b0 := if r.pollData0 != null then RemovePollFd(b, e, r.fd0, ok0).books else b;
    var b1 := if e in b0.execs && b0.execs[e].pollData1 != null then RemovePollFd(b0, e, b0.execs[e].fd1, ok1).books
              else b0;
    if e !in b1.usedExecs then b1
    else b1.(usedExecs := Without(b1.usedExecs, e), execs := b1.execs - {e}, closed := b1.closed + ClosedByDown(r))
  }

  lemma WhenItForgets(b: Books, e: ExecutorData, fd: int)
    requires e in b.execs
    ensures CloseFdFor(b, e, fd, true) == CloseFd(b, e, fd)
    ensures RemoveExecutorDataFor(b, e, true, true) == RemoveExecutorData(b, e)
  {
    hide RemovePollFd;
  }

  /** Closing a descriptor keeps the books if and only if it was not registered or the kernel forgets it; otherwise the
      record keeps a slot for a descriptor it no longer has. */
  lemma CloseExactly(b: Books, e: ExecutorData, fd: int, epollOk: bool)
    requires BooksOk(b) && e in b.execs && (fd == b.execs[e].fd0 || fd == b.execs[e].fd1)
    ensures BooksOk(CloseFdFor(b, e, fd, epollOk).books) <==> epollOk || SlotFor(b.execs[e], fd) == null
  {
    hide ListsOk, Without;
    WhenItForgets(b, e, fd);
    CloseOk(b, e, fd);
    if !epollOk && SlotFor(b.execs[e], fd) != null {
      var b1 := CloseFdFor(b, e, fd, epollOk).books;
      assert !ExecOk(b1, e);
    }
  }

  /** The books between the two removals. */
  function FirstRemoved(b: Books, e: ExecutorData, ok0: bool): Books
    requires e in b.execs
  {
    if b.execs[e].pollData0 != null then RemovePollFd(b, e, b.execs[e].fd0, ok0).books else b
  }

  lemma FirstRemovedKeeps(b: Books, e: ExecutorData, ok0: bool)
    requires BooksOk(b) && e in b.execs
    ensures var r, b0 := b.execs[e], FirstRemoved(b, e, ok0);
            && BooksOk(b0) && e in b0.execs && b0.usedExecs == b.usedExecs
            && b0.execs[e] == (if r.pollData0 != null && ok0 then r.(pollData0 := null) else r)
            && (r.pollData1 != null ==>
                  r.pollData1 != r.pollData0 && r.pollData1 in b0.polls
                  && b0.polls[r.pollData1] == b.polls[r.pollData1])
            && (r.pollData0 != null && !ok0 ==> b0 == b)
  {
    hide ListsOk, Without, PollOk;
    assert ExecOk(b, e);
    RemovePollOk(b, e, b.execs[e].fd0, ok0);
    if b.execs[e].pollData0 != null {
      SlotListed(b, e);
    }
  }

  lemma SlotListed(b: Books, e: ExecutorData)
    requires BooksOk(b) && e in b.execs
    ensures b.execs[e].pollData0 != null ==> b.execs[e].pollData0 in b.usedPolls
    ensures b.execs[e].pollData1 != null ==> b.execs[e].pollData1 in b.usedPolls
    ensures e in b.usedExecs
  {
    hide Distinct, Elements, PollOk;
    assert ExecOk(b, e);
    MemberElement(b.usedExecs, e);
    if b.execs[e].pollData0 != null {
      MemberElement<PollData>(b.usedPolls, b.execs[e].pollData0);
    }
    if b.execs[e].pollData1 != null {
      MemberElement<PollData>(b.usedPolls, b.execs[e].pollData1);
    }
  }

  lemma StillListed(b: Books, e: ExecutorData, p: PollData, b1: Books)
    requires p in b.polls && b.polls[p].execData == e && p in b1.polls && b1.polls[p] == b.polls[p] && e !in b1.execs
    ensures !BooksOk(b1)
  {
    assert !PollOk(b1, p);
  }

  /** Releasing a record keeps the books if and only if the kernel forgets each of its registered descriptors; otherwise
      a slot in use is left that belongs to no record. */
  lemma RemoveExactly(b: Books, e: ExecutorData, ok0: bool, ok1: bool)
    requires BooksOk(b) && e in b.execs
    ensures BooksOk(RemoveExecutorDataFor(b, e, ok0, ok1)) <==>
              (b.execs[e].pollData0 == null || ok0) && (b.execs[e].pollData1 == null || ok1)
  {
    hide BooksOk, RemovePollFd, Without;
    var r := b.execs[e];
    WhenItForgets(b, e, 0);
    RemoveExecutorOk(b, e);
    FirstRemovedKeeps(b, e, ok0);
    if (r.pollData0 == null || ok0) && (r.pollData1 == null || ok1) {
      assert RemoveExecutorDataFor(b, e, ok0, ok1) == RemoveExecutorDataFor(b, e, true, true);
    } else {
      SlotIsLeft(b, e, ok0, ok1);
    }
  }

  lemma SlotIsLeft(b: Books, e: ExecutorData, ok0: bool, ok1: bool)
    requires BooksOk(b) && e in b.execs
    requires (b.execs[e].pollData0 != null && !ok0) || (b.execs[e].pollData1 != null && !ok1)
    ensures !BooksOk(RemoveExecutorDataFor(b, e, ok0, ok1))
  {
    hide BooksOk, Without;
    var r := b.execs[e];
    var b0, b2 := FirstRemoved(b, e, ok0), RemoveExecutorDataFor(b, e, ok0, ok1);
    SlotsPointBack(b, e);
    FirstRemovedKeeps(b, e, ok0);
    SlotListed(b0, e);
    if r.pollData0 != null && !ok0 {
      StillListed(b, e, r.pollData0, b2);
    } else {
      StillListed(b, e, r.pollData1, b2);
    }
  }

  lemma SlotsPointBack(b: Books, e: ExecutorData)
    requires BooksOk(b) && e in b.execs
    ensures var r := b.execs[e];
            && (r.pollData0 != null ==> r.pollData0 in b.polls && b.polls[r.pollData0].execData == e)
            && (r.pollData1 != null ==> r.pollData1 in b.polls && b.polls[r.pollData1].execData == e)
            && (r.pollData0 != null || r.pollData1 != null ==> r.fd0 != r.fd1)
  {
    assert ExecOk(b, e);
  }
}
