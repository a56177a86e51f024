/** The allocator behind connections and poll records (src/utils/BlockStorage.h): items live in blocks,
    the used ones on a doubly linked list, the free ones on a singly linked list that shares `next`. */
module BlockStorage {

  /** An item with its intrusive links. */
  class Item<T> {
    var value: T
    var next: Item?<T>
    var prev: Item?<T>

    constructor (value: T)
      ensures this.value == value && next == null && prev == null
    {
      this.value := value;
      next, prev := null, null;
    }
  }

  class Block<T> {
    const items: array<Item<T>>
    const next: Block?<T>

    constructor (items: array<Item<T>>, next: Block?<T>)
      ensures this.items == items && this.next == next
    {
      this.items := items;
      this.next := next;
    }
  }

  // ---- The abstract allocator: two sequences ----

  predicate Distinct<T(==)>(s: seq<T>) {
    forall i, j :: 0 <= i < j < |s| ==> s[i] != s[j]
  }

  function Elements<T>(s: seq<T>): set<T> {
    set i | 0 <= i < |s| :: s[i]
  }

  function Without<T(==)>(s: seq<T>, x: T): (t: seq<T>)
    requires x in s
    ensures |t| == |s| - 1
  {
    if s[0] == x then s[1..] else [s[0]] + Without(s[1..], x)
  }

  lemma {:induction false} WithoutSplits<T>(s: seq<T>, i: nat)
    requires i < |s| && Distinct(s)
    ensures Without(s, s[i]) == s[..i] + s[i + 1..]
  {
    hide Distinct;
    if i > 0 {
      DistinctTail(s, i);
      WithoutSplits(s[1..], i - 1);
      assert s[1..][i..] == s[i + 1..];
      assert s[..i] == [s[0]] + s[1..][..i - 1];
    }
  }

  lemma DistinctTail<T>(s: seq<T>, i: nat)
    requires Distinct(s) && 0 < i < |s|
    ensures Distinct(s[1..]) && s[0] != s[i] && s[1..][i - 1] == s[i]
  {
  }

  /** The item at `s[i]`, or null behind the end. */
  function At<T>(s: seq<Item<T>>, i: int): Item?<T> {
    if 0 <= i < |s| then s[i] else null
  }

  /** The number of items in so many blocks. */
  function Slots(blocks: nat, blockSize: nat): nat {
    blocks * blockSize
  }

  lemma OneMoreBlock(blocks: nat, blockSize: nat)
    ensures Slots(blocks + 1, blockSize) == Slots(blocks, blockSize) + blockSize
  {
  }

  class BlockStorage<T> {
    const blockSize: nat
    /** The value of an item that was never used. */
    const initial: T
    var blocks: Block?<T>
    var freeListHead: Item?<T>
    var usedListHead: Item?<T>

    /** The used list, newest first. */
    ghost var used: seq<Item<T>>
    /** The free list, next to be allocated first. */
    ghost var free: seq<Item<T>>
    /** Every item of every block. */
    ghost var all: set<Item<T>>
    ghost var blockCount: nat

    ghost predicate UsedChain()
      reads this, Elements(used)`next, Elements(used)`prev
    {
      && Distinct(used)
      && usedListHead == At(used, 0)
      && (forall i {:trigger used[i].next} :: 0 <= i < |used| ==> used[i].next == At(used, i + 1))
      && (forall i {:trigger used[i].prev} :: 0 <= i < |used| ==> used[i].prev == At(used, i - 1))
    }

    ghost predicate FreeChain()
      reads this, Elements(free)`next
    {
      && freeListHead == At(free, 0)
      && (forall i {:trigger free[i].next} :: 0 <= i < |free| ==> free[i].next == At(free, i + 1))
    }

    /** Every item is on exactly one of the two lists, exactly once, and the links are the lists. */
    ghost predicate Valid()
      reads this, all`next, all`prev
    {
      && blockSize >= 1
      && Elements(used) + Elements(free) == all
      && Distinct(free) && Elements(used) !! Elements(free)
      && |used| + |free| == Slots(blockCount, blockSize)
      && UsedChain() && FreeChain()
    }

    /** Every item that is not in use has the initial value. */
    ghost predicate Reset()
      reads this, all
    {
      forall x <- all - Elements(used) :: x.value == initial
    }

    /** The two lists partition the items. */
    lemma Partition()
      requires Valid()
      ensures Elements(used) <= all && Elements(free) == all - Elements(used)
      ensures Distinct(used) && Distinct(free) && Elements(used) !! Elements(free)
      ensures |used| == |Elements(used)|
    {
      DistinctCount(used);
    }

    /** Iteration with Head and Next follows the used list. */
    lemma NextInUse(i: nat)
      requires Valid()
      ensures Head() == At(used, 0)
      ensures i < |used| ==> used[i] in Elements(used) && Next(used[i]) == At(used, i + 1)
    {
    }

    constructor (blockSize: nat, initial: T)
      requires blockSize >= 1
      ensures Valid() && used == [] && free == [] && all == {}
      ensures this.blockSize == blockSize && this.initial == initial
    {
      this.blockSize := blockSize;
      this.initial := initial;
      blocks, freeListHead, usedListHead := null, null, null;
      used, free, all, blockCount := [], [], {}, 0;
    }

    /** New items, not linked yet. */
    method NewItems() returns (items: array<Item<T>>)
      requires blockSize >= 1
      ensures fresh(items) && items.Length == blockSize
      ensures Distinct(items[..])
      ensures forall i :: 0 <= i < blockSize ==> fresh(items[i]) && items[i].value == initial
    {
      var made: seq<Item<T>> := [];
      for i := 0 to blockSize
        invariant |made| == i && Distinct(made)
        invariant forall k :: 0 <= k < i ==> fresh(made[k]) && made[k].value == initial
      {
        var item := new Item<T>(initial);
        made := made + [item];
      }
      items := new Item<T>[blockSize](i requires 0 <= i < |made| => made[i]);
      assert items[..] == made;
    }

    /** Chains the items of a block in their order. */
    method LinkItems(items: array<Item<T>>)
      requires items.Length >= 1 && Distinct(items[..])
      modifies Elements(items[..])`next
      ensures items[..] == old(items[..])
      ensures forall i {:trigger items[i].next} :: 0 <= i < items.Length ==> items[i].next == At(items[..], i + 1)
    {
      ghost var chain := items[..];
      items[items.Length - 1].next := null;
      for i := 0 to items.Length - 1
        modifies Elements(chain)`next
        invariant items[..] == chain
        invariant chain[items.Length - 1].next == null
        invariant forall k :: 0 <= k < i ==> chain[k].next == chain[k + 1]
      {
        assert items[i] == chain[i] && items[i + 1] == chain[i + 1];
        items[i].next := items[i + 1];
      }
    }

    /** A block of new items in a chain of their own. */
    method NewBlock() returns (block: Block<T>)
      requires blockSize >= 1
      ensures fresh(block) && fresh(block.items) && block.next == blocks
      ensures block.items.Length == blockSize && Distinct(block.items[..])
      ensures forall i {:trigger block.items[i].next} :: 0 <= i < blockSize ==>
                block.items[i].next == At(block.items[..], i + 1)
      ensures fresh(Elements(block.items[..])) && forall x <- Elements(block.items[..]) :: x.value == initial
    {
      hide Distinct;
      var items := NewItems();
      LinkItems(items);
      block := new Block<T>(items, blocks);
    }

    /** The used list is what it was if none of its links has changed. */
    twostate lemma UsedStays()
      requires old(UsedChain()) && used == old(used) && usedListHead == old(usedListHead)
      requires forall k :: 0 <= k < |used| ==> used[k].next == old(used[k].next) && used[k].prev == old(used[k].prev)
      ensures UsedChain()
    {
      hide Distinct;
    }

    twostate lemma FreeStays()
      requires old(FreeChain()) && free == old(free) && freeListHead == old(freeListHead)
      requires forall k :: 0 <= k < |free| ==> free[k].next == old(free[k].next)
      ensures FreeChain()
    {
    }

    lemma DistinctUsed()
      requires UsedChain()
      ensures Distinct(used)
    {
    }

    lemma ChainIsFree()
      requires freeListHead == At(free, 0)
      requires forall i {:trigger free[i].next} :: 0 <= i < |free| ==> free[i].next == At(free, i + 1)
      ensures FreeChain()
    {
    }

    lemma SomethingFree()
      requires FreeChain() && freeListHead != null
      ensures free != []
    {
    }

    lemma NothingFree()
      requires FreeChain() && freeListHead == null
      ensures free == [] && Elements(free) == {}
    {
    }

    /** A new block's items become the free list, in the order of the block. */
    method AllocateBlock()
      requires Valid() && freeListHead == null
      modifies this`blocks, this`freeListHead, this`free, this`all, this`blockCount
      ensures Valid() && freeListHead != null
      ensures |free| == blockSize && blockCount == old(blockCount) + 1
      ensures all == old(all) + Elements(free) && fresh(Elements(free))
      ensures forall x <- Elements(free) :: x.value == initial
    {
      hide Distinct, Slots, UsedChain, FreeChain, Elements;
      OneMoreBlock(blockCount, blockSize);
      NothingFree();
      var block := NewBlock();
      blocks := block;
      freeListHead := block.items[0];
      free := block.items[..];
      all := all + Elements(free);
      blockCount := blockCount + 1;
      Members(used);
      UsedStays();
      ChainIsFree();
    }

    method AddToUsedList(newItem: Item<T>)
      requires UsedChain() && newItem !in Elements(used)
      modifies this`usedListHead, this`used, newItem`next, newItem`prev, Elements(used)`prev
      ensures used == [newItem] + old(used) && UsedChain()
    {
      ghost var s := used;
      assert forall k :: 0 <= k < |s| ==> s[k] in Elements(s);
      if usedListHead != null {
        usedListHead.prev := newItem;
      }
      newItem.prev := null;
      newItem.next := usedListHead;
      usedListHead := newItem;
      used := [newItem] + used;
      forall k | 0 <= k < |used|
        ensures used[k].next == At(used, k + 1) && used[k].prev == At(used, k - 1)
      {
        if k > 0 {
          assert used[k] == s[k - 1] && At(used, k + 1) == At(s, k);
          assert s[k - 1].next == old(s[k - 1].next);
        }
      }
      DistinctCons(newItem, s);
    }

    /** The links around item `i` now skip it; no other link has changed. */
    ghost predicate SkipsItem(s: seq<Item<T>>, i: nat)
      requires i < |s|
      reads this, Elements(s)`next, Elements(s)`prev
    {
      usedListHead == (if i == 0 then At(s, 1) else s[0]) && NextSkips(s, i) && PrevSkips(s, i)
    }

    ghost predicate NextSkips(s: seq<Item<T>>, i: nat)
      requires i < |s|
      reads Elements(s)`next
    {
      forall k {:trigger s[k].next} :: 0 <= k < |s| && k != i ==>
        s[k].next == At(s, if k == i - 1 then i + 1 else k + 1)
    }

    ghost predicate PrevSkips(s: seq<Item<T>>, i: nat)
      requires i < |s|
      reads Elements(s)`prev
    {
      forall k {:trigger s[k].prev} :: 0 <= k < |s| && k != i ==>
        s[k].prev == At(s, if k == i + 1 then i - 1 else k - 1)
    }

    method RemoveFromUsedList(item: Item<T>, ghost i: nat)
      requires UsedChain() && i < |used| && used[i] == item
      modifies this`usedListHead, Elements(used)`next, Elements(used)`prev
      ensures SkipsItem(used, i)
    {
      ghost var s := used;
      Members(s);
      DistinctUsed();
      hide Distinct, Elements, PrevSkips, NextSkips;
      if i > 0 {
        Differ(s, 0, i);
      }
      assert item.next == At(s, i + 1) && item.prev == At(s, i - 1) && usedListHead == s[0];
      hide UsedChain;
      if item == usedListHead {
        usedListHead := item.next;
      }
      if item.prev != null {
        item.prev.next := item.next;
      }
      if item.next != null {
        item.next.prev := item.prev;
      }
      forall k {:trigger s[k]} | 0 <= k < |s| && k != i - 1 ensures s[k].next == old(s[k].next) {
        if i > 0 {
          Differ(s, k, i - 1);
        }
      }
      forall k {:trigger s[k]} | 0 <= k < |s| && k != i + 1 ensures s[k].prev == old(s[k].prev) {
        if i + 1 < |s| {
          Differ(s, k, i + 1);
        }
      }
      UnlinkedNext(i);
      UnlinkedPrev(i);
    }

    twostate lemma UnlinkedNext(i: nat)
      requires old(UsedChain()) && i < |used| && used == old(used)
      requires i > 0 ==> used[i - 1].next == At(used, i + 1)
      requires forall k :: 0 <= k < |used| && k != i - 1 ==> used[k].next == old(used[k].next)
      ensures NextSkips(used, i)
    {
    }

    twostate lemma UnlinkedPrev(i: nat)
      requires old(UsedChain()) && i < |used| && used == old(used)
      requires i + 1 < |used| ==> used[i + 1].prev == At(used, i - 1)
      requires forall k :: 0 <= k < |used| && k != i + 1 ==> used[k].prev == old(used[k].prev)
      ensures PrevSkips(used, i)
    {
    }

    ghost method ForgetUsed(i: nat)
      requires i < |used| && Distinct(used) && SkipsItem(used, i)
      modifies this`used
      ensures used == old(used[..i] + used[i + 1..]) && UsedChain()
    {
      hide Distinct;
      ghost var s := used;
      used := used[..i] + used[i + 1..];
      RemovedIndex(s, i);
      assert forall k :: 0 <= k < |s| ==> s[k] in Elements(s);
      forall k | 0 <= k < |used|
        ensures used[k].next == At(used, k + 1) && used[k].prev == At(used, k - 1)
      {
        assert used[k] == At(used, k);
        if k < i {
          assert s[k].next == At(used, k + 1) && s[k].prev == At(used, k - 1);
        } else {
          assert s[k + 1].next == At(used, k + 1) && s[k + 1].prev == At(used, k - 1);
        }
      }
      assert usedListHead == At(used, 0);
    }

    /** Takes the next item off the free list. */
    method TakeFree() returns (result: Item<T>)
      requires Valid() && free != []
      modifies this`freeListHead, this`free
      ensures result == old(free)[0] && free == old(free)[1..] && FreeChain() && UsedChain()
      ensures result in old(Elements(free)) && result !in Elements(used) && Distinct(free)
      ensures result !in Elements(free) && Elements(free) == old(Elements(free)) - {result}
    {
      hide Distinct, Slots;
      result := freeListHead;
      TailOfDistinct(free);
      assert free[0] in Elements(free);
      assert result.next == At(free, 1);
      freeListHead := result.next;
      ghost var before := free;
      free := free[1..];
      assert FreeChain() by {
        hide UsedChain;
        assert forall k {:trigger free[k]} :: 0 <= k < |free| ==> free[k] == before[k + 1];
      }
      assert UsedChain() by {
        hide FreeChain;
      }
    }

    /** Hands out an item that is not in use; it becomes the newest of the used list. */
    method Allocate() returns (result: Item<T>)
      requires Valid()
      modifies this, all`next, all`prev
      ensures Valid() && used == [result] + old(used) && result !in old(Elements(used))
      ensures Elements(used) == old(Elements(used)) + {result} && result in old(Elements(free)) + (all - old(all))
      ensures if old(free) != [] then free == old(free)[1..] && result == old(free)[0] && all == old(all)
              else fresh(result) && old(all) < all && fresh(all - old(all))
                   && (forall x <- all - old(all) :: x.value == initial)
      ensures old(all) <= all && fresh(all - old(all)) && result in all
      ensures old(Reset()) ==> Reset() && result.value == initial
    {
      hide Distinct, Slots, UsedChain, FreeChain, Elements;
      if freeListHead == null {
        NothingFree();
        AllocateBlock();
      } else {
        SomethingFree();
      }
      result := TakeFree();
      label taken:
      Members(free);
      AddToUsedList(result);
      FreeStays@taken();
      ElementsCons(result, old@taken(used));
    }

    method PushFree(p: Item<T>)
      requires FreeChain() && Distinct(free) && p !in Elements(free)
      modifies this`freeListHead, this`free, p`next
      ensures free == [p] + old(free) && FreeChain() && Distinct(free)
      ensures Elements(free) == {p} + old(Elements(free))
    {
      ghost var f := free;
      assert forall k :: 0 <= k < |f| ==> f[k] in Elements(f);
      p.next := freeListHead;
      freeListHead := p;
      free := [p] + free;
      DistinctCons(p, f);
      ElementsCons(p, f);
      forall k | 0 <= k < |free| ensures free[k].next == At(free, k + 1) {
        if k > 0 {
          assert free[k] == f[k - 1] && At(free, k + 1) == At(f, k);
          assert f[k - 1].next == old(f[k - 1].next);
        }
      }
    }

    /** Takes a used item back; it will be the next one handed out. */
    method Free(p: Item<T>)
      requires Valid() && p in Elements(used)
      modifies this, all`next, all`prev
      ensures p in old(used) && used == Without(old(used), p) && Valid() && free == [p] + old(free)
      ensures Elements(used) == old(Elements(used)) - {p}
      ensures old(Reset()) && p.value == initial ==> Reset()
      ensures all == old(all) && blockCount == old(blockCount)
    {
      hide Distinct, Slots, SkipsItem, UsedChain, FreeChain, Elements;
      ghost var i := IndexOf(used, p);
      DistinctUsed();
      WithoutSplits(used, i);
      RemovedElements(used, i);
      Members(free);
      RemoveFromUsedList(p, i);
      ForgetUsed(i);
      FreeStays();
      label unlinked:
      PushFree(p);
      Members(used);
      UsedStays@unlinked();
    }

    function Head(): Item?<T>
      reads this
    {
      usedListHead
    }

    function Next(item: Item<T>): Item?<T>
      reads item
    {
      item.next
    }

    /** Walking head/next meets exactly the items in use, newest first, each once. */
    method Walk() returns (visited: seq<Item<T>>)
      requires Valid()
      ensures visited == used
    {
      visited := [];
      var cur := Head();
      while cur != null
        invariant |visited| <= |used| && visited == used[..|visited|] && cur == At(used, |visited|)
        decreases |used| - |visited|
      {
        visited := visited + [cur];
        cur := Next(cur);
      }
    }

    /** The allocated count that getStorageInfo reports. */
    method GetStorageInfo() returns (allocatedCount: nat)
      requires Valid()
      ensures allocatedCount == |used| && allocatedCount + |free| == blockCount * blockSize
    {
      var cur := usedListHead;
      allocatedCount := 0;
      while cur != null
        invariant allocatedCount <= |used| && cur == At(used, allocatedCount)
        decreases |used| - allocatedCount
      {
        allocatedCount := allocatedCount + 1;
        cur := cur.next;
      }
    }
  }

  lemma Members<T>(s: seq<T>)
    ensures forall k :: 0 <= k < |s| ==> s[k] in Elements(s)
  {
  }

  lemma IndexOf<T>(s: seq<T>, x: T) returns (i: nat)
    requires x in Elements(s)
    ensures i < |s| && s[i] == x
  {
    i :| i < |s| && s[i] == x;
  }

  lemma Differ<T>(s: seq<T>, i: nat, j: nat)
    requires Distinct(s) && i < |s| && j < |s| && i != j
    ensures s[i] != s[j]
  {
  }

  lemma DistinctCons<T>(x: T, s: seq<T>)
    requires Distinct(s) && x !in Elements(s)
    ensures Distinct([x] + s)
  {
    assert forall k :: 0 <= k < |s| ==> s[k] in Elements(s);
  }

  lemma ElementsCons<T>(x: T, s: seq<T>)
    ensures Elements([x] + s) == {x} + Elements(s)
  {
    var t := [x] + s;
    assert t[0] == x;
    forall y <- Elements(s) ensures y in Elements(t) {
      var k :| 0 <= k < |s| && s[k] == y;
      assert t[k + 1] == y;
    }
  }

  lemma RemovedIndex<T>(s: seq<Item<T>>, i: nat)
    requires i < |s| && Distinct(s)
    ensures var t := s[..i] + s[i + 1..];
            && Distinct(t)
            && forall k :: -1 <= k <= |t| ==> At(t, k) == At(s, if k < i then k else k + 1)
  {
  }

  lemma TailOfDistinct<T>(s: seq<T>)
    requires s != [] && Distinct(s)
    ensures Distinct(s[1..]) && Elements(s[1..]) == Elements(s) - {s[0]}
  {
    forall x <- Elements(s) - {s[0]} ensures x in Elements(s[1..]) {
      var k :| 0 <= k < |s| && s[k] == x;
      assert s[1..][k - 1] == x;
    }
  }

  lemma RemovedElements<T>(s: seq<T>, i: nat)
    requires i < |s| && Distinct(s)
    ensures Elements(s[..i] + s[i + 1..]) == Elements(s) - {s[i]}
  {
    var t := s[..i] + s[i + 1..];
    forall x <- Elements(s) - {s[i]} ensures x in Elements(t) {
      var k :| 0 <= k < |s| && s[k] == x;
      assert t[if k < i then k else k - 1] == x;
    }
    forall x <- Elements(t) ensures x in Elements(s) - {s[i]} {
      var k :| 0 <= k < |t| && t[k] == x;
      assert s[if k < i then k else k + 1] == x;
    }
  }

  lemma {:induction false} DistinctCount<T>(s: seq<T>)
    requires Distinct(s)
    ensures |Elements(s)| == |s|
  {
    if s != [] {
      TailOfDistinct(s);
      DistinctCount(s[1..]);
      assert s[0] in Elements(s);
      assert Elements(s) == Elements(s[1..]) + {s[0]};
    }
  }

  lemma WithoutElements<T>(s: seq<T>, x: T)
    requires Distinct(s) && x in s
    ensures Elements(Without(s, x)) == Elements(s) - {x}
  {
    var i: nat :| i < |s| && s[i] == x;
    WithoutSplits(s, i);
    RemovedElements(s, i);
  }
}
