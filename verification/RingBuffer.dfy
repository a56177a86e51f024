/** The byte ring between two sockets (src/utils/TransferRingBuffer.h): its two heads, the bytes they
    denote, and the proof that it is a bounded first-in-first-out queue. */
module RingBuffer {
  import opened Sequences

  /** A snapshot of the buffer: the stored bytes and the two heads. */
  datatype Ring = Ring(store: seq<char>, readHead: nat, writeHead: nat) {

    predicate Ok() {
      if |store| == 0 then readHead == 0 && writeHead == 0
      else readHead < |store| && writeHead <= |store|
    }

    /** The unread bytes, oldest first. */
    function Contents(): seq<char>
      requires Ok()
    {
      if readHead <= writeHead then store[readHead..writeHead]
      else store[readHead..] + store[..writeHead]
    }

    /** Writing starts over at the front when the back is used up and the front has been read. */
    function Wrapped(): Ring {
      if writeHead == |store| && readHead != 0 then this.(writeHead := 0) else this
    }

    function WriteRoom(): nat
      requires Ok()
    {
      if writeHead >= readHead then |store| - writeHead else readHead - writeHead - 1
    }

    /** The bytes that somebody stored behind the write head, before `endWrite` announces them. */
    function Filled(bytes: seq<char>): Ring
      requires Ok() && |bytes| <= WriteRoom()
    {
      this.(store := store[..writeHead] + bytes + store[writeHead + |bytes|..])
    }

    function Advanced(n: nat): Ring {
      this.(writeHead := writeHead + n)
    }

    function ReadRoom(): nat
      requires Ok()
    {
      if readHead < writeHead then writeHead - readHead
      else if readHead > writeHead then |store| - readHead
      else 0
    }

    function Exposed(): seq<char>
      requires Ok()
    {
      store[readHead..readHead + ReadRoom()]
    }

    function Consumed(n: nat): Ring {
      if readHead + n == |store| then
        this.(readHead := 0, writeHead := if writeHead == |store| then 0 else writeHead)
      else this.(readHead := readHead + n)
    }

    function Cleared(): Ring {
      this.(readHead := 0, writeHead := 0)
    }

    /** One whole write: startWrite, the bytes, endWrite. */
    function Written(bytes: seq<char>): Ring
      requires Ok() && Wrapped().Ok() && |bytes| <= Wrapped().WriteRoom()
    {
      Wrapped().Filled(bytes).Advanced(|bytes|)
    }
  }

  lemma WrappedKeeps(r: Ring)
    requires r.Ok()
    ensures r.Wrapped().Ok() && r.Wrapped().Contents() == r.Contents()
    ensures |r.Wrapped().store| == |r.store|
  {
    if r.writeHead == |r.store| && r.readHead != 0 {
      assert r.store[..0] == [];
    }
  }

  /** startWrite refuses only a buffer that holds all but one of its bytes or all of them, and what
      it offers always fits behind the unread bytes. */
  lemma RoomIsFree(r: Ring)
    requires r.Ok()
    ensures r.Wrapped().Ok()
    ensures r.Wrapped().WriteRoom() == 0 ==> |r.Contents()| + 1 >= |r.store|
    ensures r.Wrapped().WriteRoom() + |r.Contents()| <= |r.store|
    ensures forall bytes :: |bytes| <= r.Wrapped().WriteRoom() ==> r.Wrapped().Filled(bytes).Ok()
    ensures forall bytes :: |bytes| <= r.Wrapped().WriteRoom() ==> r.Wrapped().Filled(bytes).Contents() == r.Contents()
  {
    WrappedKeeps(r);
    forall bytes: seq<char> | |bytes| <= r.Wrapped().WriteRoom()
      ensures r.Wrapped().Filled(bytes).Ok() && r.Wrapped().Filled(bytes).Contents() == r.Contents()
    {
      FilledKeeps(r.Wrapped(), bytes);
    }
  }

  /** Bytes stored into the offered room overlap no unread byte. */
  lemma FilledKeeps(r: Ring, bytes: seq<char>)
    requires r.Ok() && |bytes| <= r.WriteRoom()
    ensures r.Filled(bytes).Ok() && r.Filled(bytes).Contents() == r.Contents()
    ensures |r.Filled(bytes).store| == |r.store|
  {
    var w, s := r.writeHead, r.Filled(bytes).store;
    StoredFront(r.store, w, bytes);
    if r.readHead <= w {
      assert s[r.readHead..w] == s[..w][r.readHead..];
      assert r.store[r.readHead..w] == r.store[..w][r.readHead..];
    } else {
      StoredBack(r.store, w, bytes, r.readHead);
    }
  }

  /** Bytes stored from `w` on leave what stands in front of them and behind them. */
  lemma StoredFront(store: seq<char>, w: nat, bytes: seq<char>)
    requires w + |bytes| <= |store|
    ensures (store[..w] + bytes + store[w + |bytes|..])[..w] == store[..w]
  {
  }

  lemma StoredBack(store: seq<char>, w: nat, bytes: seq<char>, k: nat)
    requires w + |bytes| <= k <= |store|
    ensures (store[..w] + bytes + store[w + |bytes|..])[k..] == store[k..]
  {
  }

  lemma AdvancedAppends(r: Ring, n: nat)
    requires r.Ok() && n <= r.WriteRoom()
    ensures r.Advanced(n).Ok()
    ensures r.Advanced(n).Contents() == r.Contents() + r.store[r.writeHead..r.writeHead + n]
  {
  }

  lemma WrittenAppends(r: Ring, bytes: seq<char>)
    requires r.Ok() && r.Wrapped().Ok() && |bytes| <= r.Wrapped().WriteRoom()
    ensures r.Written(bytes).Ok() && |r.Written(bytes).store| == |r.store|
    ensures r.Written(bytes).Contents() == r.Contents() + bytes
  {
    WrappedKeeps(r);
    var w := r.Wrapped();
    FilledKeeps(w, bytes);
    AdvancedAppends(w.Filled(bytes), |bytes|);
    assert w.Filled(bytes).store[w.writeHead..w.writeHead + |bytes|] == bytes;
  }

  /** startRead offers a prefix of the queue, and a non-empty one unless the queue is empty. */
  lemma ExposedIsPrefix(r: Ring)
    requires r.Ok()
    ensures r.Exposed() <= r.Contents() && |r.Exposed()| == r.ReadRoom()
    ensures r.ReadRoom() == 0 <==> r.Contents() == []
    ensures r.readHead <= r.writeHead ==> r.Exposed() == r.Contents()
  {
  }

  lemma ConsumedDrops(r: Ring, n: nat)
    requires r.Ok() && n <= r.ReadRoom()
    ensures r.Consumed(n).Ok() && |r.Consumed(n).store| == |r.store|
    ensures n <= |r.Contents()| && r.Consumed(n).Contents() == r.Contents()[n..]
  {
  }

  lemma ConsumedKeepsOrder(r: Ring, n: nat)
    requires r.Ok() && n <= r.ReadRoom() && r.readHead <= r.writeHead
    ensures r.Consumed(n).readHead <= r.Consumed(n).writeHead
  {
  }

  /** An empty ring takes bytes up to its end and gives them back. */
  lemma BytesThroughRing(r: Ring, b: seq<char>)
    requires r.Ok() && r.Contents() == [] && 1 <= |b| && r.readHead + |b| <= |r.store|
    ensures r.Wrapped() == r && |b| <= r.WriteRoom()
    ensures var w := r.Written(b);
            && w.Ok() && w.ReadRoom() == |b| && w.Exposed() == b
            && w.Consumed(|b|).Ok() && w.Consumed(|b|).Contents() == []
  {
    hide Ring.Exposed, Ring.Consumed;
    assert r.readHead == r.writeHead;
    WrittenAppends(r, b);
    assert r.Contents() + b == b;
    BytesComeBack(r.Written(b), b);
  }

  lemma BytesComeBack(w: Ring, b: seq<char>)
    requires w.Ok() && w.Contents() == b
    requires w.readHead <= w.writeHead
    ensures w.ReadRoom() == |b| && w.Exposed() == b
    ensures w.Consumed(|b|).Ok() && w.Consumed(|b|).Contents() == []
  {
    hide Ring.Contents, Ring.Exposed, Ring.Consumed, Ring.ReadRoom;
    ExposedIsPrefix(w);
    ConsumedDrops(w, |b|);
  }

  // ---- Runs of reads and writes ----

  datatype Op = Write(bytes: seq<char>) | Read(count: nat)

  /** The buffer's protocol: never more than was offered. */
  predicate Legal(r: Ring, op: Op)
    requires r.Ok()
  {
    match op
    case Write(bytes) => r.Wrapped().Ok() && |bytes| <= r.Wrapped().WriteRoom()
    case Read(n) => n <= r.ReadRoom()
  }

  function Apply(r: Ring, op: Op): Ring
    requires r.Ok() && Legal(r, op)
  {
    match op
    case Write(bytes) => r.Written(bytes)
    case Read(n) => r.Consumed(n)
  }

  lemma ApplyOk(r: Ring, op: Op)
    requires r.Ok() && Legal(r, op)
    ensures Apply(r, op).Ok()
  {
    match op
    case Write(bytes) => WrittenAppends(r, bytes);
    case Read(n) => ConsumedDrops(r, n);
  }

  predicate LegalRun(r: Ring, ops: seq<Op>)
    requires r.Ok()
    decreases |ops|
  {
    ops == [] || (Legal(r, ops[0]) && (ApplyOk(r, ops[0]); LegalRun(Apply(r, ops[0]), ops[1..])))
  }

  function RunOps(r: Ring, ops: seq<Op>): (r': Ring)
    requires r.Ok() && LegalRun(r, ops)
    ensures r'.Ok()
    decreases |ops|
  {
    if ops == [] then r
    else
      ApplyOk(r, ops[0]);
      RunOps(Apply(r, ops[0]), ops[1..])
  }

  function BytesIn(ops: seq<Op>): seq<char> {
    if ops == [] then []
    else (if ops[0].Write? then ops[0].bytes else []) + BytesIn(ops[1..])
  }

  function BytesOut(r: Ring, ops: seq<Op>): seq<char>
    requires r.Ok() && LegalRun(r, ops)
    decreases |ops|
  {
    if ops == [] then []
    else
      ApplyOk(r, ops[0]);
      (if ops[0].Read? then r.Exposed()[..ops[0].count] else []) + BytesOut(Apply(r, ops[0]), ops[1..])
  }

  /** Whatever the interleaving, the bytes read so far followed by the bytes still held are the bytes
      held at first followed by the bytes written: nothing is lost, repeated or reordered. */
  lemma {:induction false} FirstInFirstOut(r: Ring, ops: seq<Op>)
    requires r.Ok() && LegalRun(r, ops)
    ensures BytesOut(r, ops) + RunOps(r, ops).Contents() == r.Contents() + BytesIn(ops)
    decreases |ops|
  {
    if ops != [] {
      var op, rest := ops[0], ops[1..];
      ApplyOk(r, op);
      var r' := Apply(r, op);
      FirstInFirstOut(r', rest);
      OneOp(r, op, BytesOut(r', rest), RunOps(r', rest).Contents(), BytesIn(rest));
    }
  }

  lemma OneOp(r: Ring, op: Op, out: seq<char>, held: seq<char>, more: seq<char>)
    requires r.Ok() && Legal(r, op) && Apply(r, op).Ok()
    requires out + held == Apply(r, op).Contents() + more
    ensures (if op.Read? then r.Exposed()[..op.count] else []) + out + held
            == r.Contents() + ((if op.Write? then op.bytes else []) + more)
  {
    hide Ring.Contents, Ring.Exposed, Ring.Written, Ring.Consumed, Ring.Ok;
    match op
    case Write(bytes) =>
      WrittenAppends(r, bytes);
      Assoc(r.Contents(), bytes, more);
      assert [] + out == out;
    case Read(n) =>
      ReadSplits(r, n);
      Assoc(r.Exposed()[..n], r.Consumed(n).Contents(), more);
      Assoc(r.Exposed()[..n], out, held);
      assert [] + more == more;
  }

  lemma ReadSplits(r: Ring, n: nat)
    requires r.Ok() && n <= r.ReadRoom() && r.Consumed(n).Ok()
    ensures n <= |r.Exposed()| && r.Contents() == r.Exposed()[..n] + r.Consumed(n).Contents()
  {
    ConsumedDrops(r, n);
    ExposedIsPrefix(r);
  }

  class TransferRingBuffer {
    var buf: array<char>
    var readHead: nat
    var writeHead: nat

    function Abs(): Ring
      reads this, buf
    {
      Ring(buf[..], readHead, writeHead)
    }

    ghost predicate Valid()
      reads this, buf
    {
      Abs().Ok()
    }

    function Contents(): seq<char>
      requires Valid()
      reads this, buf
    {
      Abs().Contents()
    }

    constructor (size: nat)
      ensures Valid() && Contents() == [] && buf.Length == size && fresh(buf)
    {
      buf := new char[size];
      readHead, writeHead := 0, 0;
    }

    method Init(newSize: nat)
      modifies this
      ensures Valid() && Contents() == [] && buf.Length == newSize
      ensures readHead == writeHead == 0
      ensures if newSize == old(buf.Length) then buf == old(buf) else fresh(buf)
    {
      if newSize != buf.Length {
        buf := new char[newSize];
      }
      writeHead := 0;
      readHead := 0;
    }

    method Clear()
      modifies this`readHead, this`writeHead
      ensures Abs() == old(Abs()).Cleared()
      ensures Valid() && Contents() == []
    {
      writeHead := 0;
      readHead := 0;
    }

    /** Offers `size` bytes of `buf` from `at` on. */
    method StartWrite() returns (ok: bool, at: nat, size: nat)
      requires Valid()
      modifies this`writeHead
      ensures Abs() == old(Abs()).Wrapped() && Valid() && Contents() == old(Contents())
      ensures size == Abs().WriteRoom() && at == writeHead && at + size <= buf.Length
      ensures ok <==> size > 0
      ensures !ok ==> |Contents()| + 1 >= buf.Length
    {
      RoomIsFree(Abs());
      WrappedKeeps(Abs());
      if writeHead == buf.Length {
        if readHead == 0 {
          return false, writeHead, 0;
        } else {
          writeHead := 0;
        }
      }
      at := writeHead;
      if writeHead >= readHead {
        size := buf.Length - writeHead;
      } else {
        size := readHead - writeHead - 1;
      }
      ok := size > 0;
    }

    /** What a read system call does with the offered memory. */
    method Fill(bytes: seq<char>)
      requires Valid() && |bytes| <= Abs().WriteRoom()
      modifies buf
      ensures Abs() == old(Abs()).Filled(bytes) && Valid() && Contents() == old(Contents())
      ensures Abs().WriteRoom() == old(Abs().WriteRoom())
    {
      hide Ring.Contents;
      ghost var before := Abs();
      FilledKeeps(before, bytes);
      forall i | 0 <= i < |bytes| {
        buf[writeHead + i] := bytes[i];
      }
      assert buf[..] == before.Filled(bytes).store;
    }

    method EndWrite(size: nat)
      requires Valid() && size <= Abs().WriteRoom()
      modifies this`writeHead
      ensures Abs() == old(Abs()).Advanced(size)
      ensures Valid() && Contents() == old(Contents()) + buf[old(writeHead)..old(writeHead) + size]
    {
      hide Ring.Contents;
      AdvancedAppends(Abs(), size);
      writeHead := writeHead + size;
    }

    method StartRead() returns (ok: bool, bytes: seq<char>)
      requires Valid()
      ensures bytes == Abs().Exposed() && bytes <= Contents()
      ensures ok <==> bytes != []
      ensures ok <==> Contents() != []
    {
      ExposedIsPrefix(Abs());
      var size;
      if readHead < writeHead {
        size := writeHead - readHead;
      } else if readHead > writeHead {
        size := buf.Length - readHead;
      } else {
        size := 0;
      }
      return size > 0, buf[readHead..readHead + size];
    }

    method EndRead(size: nat)
      requires Valid() && size <= Abs().ReadRoom()
      modifies this`readHead, this`writeHead
      ensures Abs() == old(Abs()).Consumed(size)
      ensures Valid() && size <= |old(Contents())| && Contents() == old(Contents())[size..]
    {
      hide Ring.Contents;
      ConsumedDrops(Abs(), size);
      readHead := readHead + size;
      if readHead == buf.Length {
        readHead := 0;
        if writeHead == buf.Length {
          writeHead := 0;
        }
      }
    }

    method ReadAvailable() returns (ok: bool)
      requires Valid()
      ensures ok <==> Contents() != []
    {
      var bytes;
      ok, bytes := StartRead();
    }
  }
}
