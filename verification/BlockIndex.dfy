/**
 The explicit producer of moodycamel/concurrentqueue.h: a circular list of
 element blocks that is reused when the oldest block has been emptied, and a
 circular index from element numbers to blocks that doubles when it is full.
 Claimed elements may be read and released in any order.
 */
module BlockIndex {
  import opened Basics

  datatype Entry = Entry(base: nat, block: nat)

  // ----- Arithmetic of circular slots and of blocks -----

  /** Slot x of a circular index of the given size, for x at most one lap off. */
  function Wrap(x: int, size: nat): int {
    if x < 0 then x + size else if x < size then x else x - size
  }

  lemma WrapIsMod(x: int, size: nat)
    requires size > 0 && -(size as int) <= x < 2 * size
    ensures x % size == Wrap(x, size) && 0 <= Wrap(x, size) < size
  {
    SmallRemainder(Wrap(x, size), size);
    if x < 0 { LapReturns(x, size); } else if x >= size { LapReturns(x - size, size); }
  }

  lemma DivSuccessor(i: nat, n: nat)
    requires n > 0
    ensures (i + 1) % n == 0 ==> (i + 1) / n == i / n + 1
    ensures (i + 1) % n != 0 ==> (i + 1) / n == i / n && (i + 1) % n == i % n + 1
  {
    assert ((i + 1) / n - i / n) * n == 1 + i % n - (i + 1) % n;
    var d := (i + 1) / n - i / n;
    assert d >= 2 ==> d * n >= 2 * n;
    assert d <= -1 ==> d * n <= -(n as int);
    assert d == 0 || d == 1;
  }

  lemma {:induction false} DivMonotone(i: nat, j: nat, n: nat)
    requires n > 0 && i <= j
    ensures i / n <= j / n
    decreases j - i
  {
    if i < j {
      DivSuccessor(j - 1, n);
      DivMonotone(i, j - 1, n);
    }
  }

  /** The signed block distance that `dequeue` computes by subtracting bases and dividing. */
  lemma BlockDistance(a: nat, b: nat, n: nat)
    requires n > 0
    ensures (a * n - b * n) / n == a - b
  {
    assert a * n - b * n == (a - b) * n;
    var q := ((a - b) * n) / n;
    assert ((a - b) * n) == q * n + ((a - b) * n) % n;
    assert ((a - b) - q) * n == ((a - b) * n) % n;
    SmallMultiple((a - b) - q, n);
  }

  // ----- The ring of blocks -----

  /** The blocks of the producer, oldest first, as the circular list links them from the tail block on. */
  ghost predicate RingOk(ring: seq<nat>, next: seq<nat>, tailBlock: Option<nat>) {
    && (tailBlock == if ring == [] then None else Some(ring[|ring| - 1]))
    && (forall j: nat :: j < |ring| ==> ring[j] < |next|)
    && (forall i: nat, j: nat :: i < j < |ring| ==> ring[i] != ring[j])
    && (forall j: nat {:trigger next[ring[j]]} :: j < |ring| ==> next[ring[j]] == Successor(ring, j))
  }

  function Successor(ring: seq<nat>, j: nat): nat
    requires j < |ring|
  {
    if j + 1 < |ring| then ring[j + 1] else ring[0]
  }

  function Rotate(ring: seq<nat>): seq<nat>
    requires ring != []
  {
    ring[1..] + [ring[0]]
  }

  lemma RotateRing(ring: seq<nat>, next: seq<nat>)
    requires ring != [] && RingOk(ring, next, Some(ring[|ring| - 1]))
    ensures RingOk(Rotate(ring), next, Some(ring[0]))
  {
    var r := Rotate(ring);
    forall j: nat | j < |r| ensures next[r[j]] == Successor(r, j) {
      if j + 1 < |r| { assert r[j] == ring[j + 1]; } else { assert r[j] == ring[0]; }
    }
  }

  /** Linking a new block behind the tail block. */
  function LinkAfterTail(next: seq<nat>, tailBlock: Option<nat>): seq<nat>
    requires tailBlock.Some? ==> tailBlock.value < |next|
  {
    var b := |next|;
    if tailBlock.None? then next + [b] else next[tailBlock.value := b] + [next[tailBlock.value]]
  }

  lemma GrowRing(ring: seq<nat>, next: seq<nat>, tailBlock: Option<nat>)
    requires RingOk(ring, next, tailBlock)
    ensures RingOk(ring + [|next|], LinkAfterTail(next, tailBlock), Some(|next|))
  {
    var r, n := ring + [|next|], LinkAfterTail(next, tailBlock);
    forall j: nat | j < |r| ensures n[r[j]] == Successor(r, j) {
      if j < |ring| { assert r[j] == ring[j] && (j + 1 < |ring| ==> ring[j] != ring[|ring| - 1]); }
    }
  }

  // ----- The circular index -----

  /** The slot of the j-th oldest block, when `used` slots end just before `front`. */
  function Slot(front: nat, used: nat, size: nat, j: nat): int {
    Wrap(front - used + j, size)
  }

  /** The last |window| slots before `front` hold the window, in order. */
  ghost predicate IndexOk(entries: seq<Entry>, front: nat, window: seq<Entry>) {
    && 0 < |entries| && front < |entries| && |window| <= |entries|
    && (forall j: nat {:trigger window[j]} :: j < |window| ==> entries[Slot(front, |window|, |entries|, j)] == window[j])
  }

  /** Overwriting the slot at `front` while the oldest entry leaves. */
  lemma IndexRotate(entries: seq<Entry>, front: nat, window: seq<Entry>, e: Entry)
    requires IndexOk(entries, front, window) && window != []
    ensures IndexOk(entries[front := e], Wrap(front + 1, |entries|), window[1..] + [e])
  {
    var size, k := |entries|, |window|;
    var es, w, f := entries[front := e], window[1..] + [e], Wrap(front + 1, size);
    forall j: nat | j < |w| ensures es[Slot(f, k, size, j)] == w[j] {
      if j + 1 < k {
        assert Slot(f, k, size, j) == Slot(front, k, size, j + 1) && w[j] == window[j + 1];
      } else {
        assert Slot(f, k, size, j) == front;
      }
    }
  }

  /** Writing the slot at `front` for an entry that is added. */
  lemma IndexGrow(entries: seq<Entry>, front: nat, window: seq<Entry>, e: Entry)
    requires IndexOk(entries, front, window) && |window| < |entries|
    ensures IndexOk(entries[front := e], Wrap(front + 1, |entries|), window + [e])
  {
    var size, k := |entries|, |window|;
    var es, w, f := entries[front := e], window + [e], Wrap(front + 1, size);
    forall j: nat | j < |w| ensures es[Slot(f, k + 1, size, j)] == w[j] {
      if j < k {
        assert Slot(f, k + 1, size, j) == Slot(front, k, size, j) && w[j] == window[j];
      } else {
        assert Slot(f, k + 1, size, j) == front;
      }
    }
  }

  /** Copying the used slots to the front of a larger index. */
  lemma IndexCopy(entries: seq<Entry>, front: nat, window: seq<Entry>, copy: seq<Entry>)
    requires IndexOk(entries, front, window) && |copy| > |window|
    requires forall j: nat :: j < |window| ==> copy[j] == entries[Slot(front, |window|, |entries|, j)]
    ensures IndexOk(copy, |window|, window)
  {
    forall j: nat | j < |window| ensures copy[Slot(|window|, |window|, |copy|, j)] == window[j] {
      assert Slot(|window|, |window|, |copy|, j) == j;
    }
  }

  /** The window lists the blocks of the ring with the numbers of their first elements. */
  ghost predicate WindowOk(window: seq<Entry>, ring: seq<nat>, first: nat, blockSize: nat) {
    && |window| == |ring|
    && (forall j: nat {:trigger window[j]} :: j < |ring| ==> window[j].block == ring[j] && window[j].base == (first + j) * blockSize)
  }

  lemma WindowRotate(window: seq<Entry>, ring: seq<nat>, first: nat, blockSize: nat, tail: nat)
    requires WindowOk(window, ring, first, blockSize) && ring != [] && tail == (first + |ring|) * blockSize
    ensures WindowOk(window[1..] + [Entry(tail, ring[0])], Rotate(ring), first + 1, blockSize)
  {
    var w, r := window[1..] + [Entry(tail, ring[0])], Rotate(ring);
    forall j: nat | j < |r| ensures w[j].block == r[j] && w[j].base == (first + 1 + j) * blockSize {
      if j + 1 < |ring| { assert w[j] == window[j + 1]; }
    }
  }

  lemma WindowGrow(window: seq<Entry>, ring: seq<nat>, first: nat, blockSize: nat, tail: nat, b: nat)
    requires WindowOk(window, ring, first, blockSize) && tail == (first + |ring|) * blockSize
    ensures WindowOk(window + [Entry(tail, b)], ring + [b], first, blockSize)
  {
    var w := window + [Entry(tail, b)];
    forall j: nat | j < |w| ensures w[j].block == (ring + [b])[j] && w[j].base == (first + j) * blockSize {
      if j < |ring| { assert w[j] == window[j]; }
    }
  }

  /** The slot `dequeue` computes for element i from the newest entry and its base. */
  function SlotOf(newest: nat, base: nat, i: nat, blockSize: nat, size: nat): nat
    requires blockSize > 0 && size > 0
  {
    (newest + (i - i % blockSize - base) / blockSize) % size
  }

  /** The newest entry plus the signed block distance leads to the entry of the wanted block. */
  lemma LookupSlot(entries: seq<Entry>, front: nat, window: seq<Entry>, ring: seq<nat>, first: nat, blockSize: nat, i: nat)
    requires IndexOk(entries, front, window) && WindowOk(window, ring, first, blockSize)
    requires blockSize > 0 && first <= i / blockSize < first + |ring|
    ensures
      var newest := Wrap(front - 1, |entries|);
      && 0 <= newest < |entries|
      && SlotOf(newest, entries[newest].base, i, blockSize, |entries|) < |entries|
      && entries[SlotOf(newest, entries[newest].base, i, blockSize, |entries|)].block == ring[i / blockSize - first]
  {
    var size, k := |entries|, |ring|;
    var newest, j := Wrap(front - 1, size), i / blockSize - first;
    assert newest == Slot(front, k, size, k - 1) && window[k - 1] == entries[newest];
    assert i - i % blockSize == (i / blockSize) * blockSize;
    BlockDistance(i / blockSize, first + (k - 1), blockSize);
    var offset := (i - i % blockSize - entries[newest].base) / blockSize;
    assert offset == j - (k - 1);
    WrapIsMod(newest + offset, size);
    assert (newest + offset) % size == Slot(front, k, size, j) && window[j] == entries[Slot(front, k, size, j)];
  }

  // ----- The elements -----

  /** The block of element i. */
  ghost function BlockOf(ring: seq<nat>, first: nat, blockSize: nat, i: nat): nat
    requires blockSize > 0 && first <= i / blockSize < first + |ring|
  {
    ring[i / blockSize - first]
  }

  ghost predicate InWindow(ring: seq<nat>, first: nat, blockSize: nat, i: nat)
    requires blockSize > 0
  {
    first <= i / blockSize < first + |ring|
  }

  /** Every unreleased element is in the window, stored in its block; the empty flags tell the released ones. */
  ghost predicate StoreOk<T>(blocks: seq<seq<Option<T>>>, flags: seq<seq<bool>>, ring: seq<nat>, first: nat,
                             blockSize: nat, items: seq<T>, released: set<nat>) {
    && blockSize > 0 && |flags| == |blocks|
    && (forall b: nat :: b < |blocks| ==> |blocks[b]| == blockSize && |flags[b]| == blockSize)
    && (forall j: nat :: j < |ring| ==> ring[j] < |blocks|)
    && (forall i: nat :: i in released ==> i < |items|)
    && (forall i: nat {:trigger InWindow(ring, first, blockSize, i)} :: InWindow(ring, first, blockSize, i) ==>
          && flags[BlockOf(ring, first, blockSize, i)][i % blockSize] == (i in released)
          && (i < |items| && i !in released ==>
                blocks[BlockOf(ring, first, blockSize, i)][i % blockSize] == Some(items[i])))
    && (forall i: nat {:trigger i in released} :: i < |items| && i !in released ==> InWindow(ring, first, blockSize, i))
    && (if ring == [] then first == 0 && items == [] else items != [] && (|items| - 1) / blockSize == first + |ring| - 1)
  }

  /** The empty flags after `reset_empty`. */
  function NoFlags(n: nat): seq<bool> {
    seq(n, _ => false)
  }

  ghost predicate Distinct(ring: seq<nat>) {
    forall i: nat, j: nat :: i < j < |ring| ==> ring[i] != ring[j]
  }

  /** A full last block ends right before the next element's block. */
  lemma NextBlockNumber<T>(blocks: seq<seq<Option<T>>>, flags: seq<seq<bool>>, ring: seq<nat>, first: nat,
                           blockSize: nat, items: seq<T>, released: set<nat>)
    requires StoreOk(blocks, flags, ring, first, blockSize, items, released)
    ensures |items| % blockSize == 0 ==> |items| / blockSize == first + |ring| && |items| == (first + |ring|) * blockSize
    ensures |items| % blockSize != 0 ==> ring != [] && |items| / blockSize == first + |ring| - 1
    ensures forall i: nat :: i < |items| ==> i / blockSize < first + |ring|
  {
    SmallRemainder(0, blockSize);
    if items != [] {
      DivSuccessor(|items| - 1, blockSize);
      forall i: nat | i < |items| ensures i / blockSize < first + |ring| { DivMonotone(i, |items| - 1, blockSize); }
    }
  }

  lemma StoreReuse<T>(blocks: seq<seq<Option<T>>>, flags: seq<seq<bool>>, ring: seq<nat>, first: nat,
                      blockSize: nat, items: seq<T>, released: set<nat>, x: T)
    requires StoreOk(blocks, flags, ring, first, blockSize, items, released) && Distinct(ring)
    requires ring != [] && |items| % blockSize == 0
    requires forall o: nat :: o < blockSize ==> flags[ring[0]][o]
    ensures StoreOk(blocks[ring[0] := blocks[ring[0]][0 := Some(x)]], flags[ring[0] := NoFlags(blockSize)],
                    Rotate(ring), first + 1, blockSize, items + [x], released)
  {
    NextBlockNumber(blocks, flags, ring, first, blockSize, items, released);
    var tail, r := |items|, Rotate(ring);
    forall i: nat | InWindow(r, first + 1, blockSize, i)
      ensures i / blockSize < first + |ring| ==>
                InWindow(ring, first, blockSize, i) && BlockOf(r, first + 1, blockSize, i) == BlockOf(ring, first, blockSize, i) != ring[0]
      ensures i / blockSize == first + |ring| ==> BlockOf(r, first + 1, blockSize, i) == ring[0] && tail <= i
    {
    }
    forall i: nat | i < tail + 1 && i !in released ensures InWindow(r, first + 1, blockSize, i) {
      if i < tail { assert InWindow(ring, first, blockSize, i); }
    }
  }

  lemma StoreGrow<T>(blocks: seq<seq<Option<T>>>, flags: seq<seq<bool>>, ring: seq<nat>, first: nat,
                     blockSize: nat, items: seq<T>, released: set<nat>, x: T, fresh': seq<Option<T>>)
    requires StoreOk(blocks, flags, ring, first, blockSize, items, released)
    requires |items| % blockSize == 0 && |fresh'| == blockSize && fresh'[0] == Some(x)
    ensures StoreOk(blocks + [fresh'], flags + [NoFlags(blockSize)],
                    ring + [|blocks|], first, blockSize, items + [x], released)
  {
    NextBlockNumber(blocks, flags, ring, first, blockSize, items, released);
    var tail, r := |items|, ring + [|blocks|];
    forall i: nat | InWindow(r, first, blockSize, i)
      ensures i / blockSize < first + |ring| ==>
                InWindow(ring, first, blockSize, i) && BlockOf(r, first, blockSize, i) == BlockOf(ring, first, blockSize, i) < |blocks|
      ensures i / blockSize == first + |ring| ==> BlockOf(r, first, blockSize, i) == |blocks| && tail <= i
    {
    }
    forall i: nat | i < tail + 1 && i !in released ensures InWindow(r, first, blockSize, i) {
      if i < tail { assert InWindow(ring, first, blockSize, i); }
    }
  }

  lemma StoreAppend<T>(blocks: seq<seq<Option<T>>>, flags: seq<seq<bool>>, ring: seq<nat>, first: nat,
                       blockSize: nat, items: seq<T>, released: set<nat>, x: T)
    requires StoreOk(blocks, flags, ring, first, blockSize, items, released) && Distinct(ring)
    requires |items| % blockSize != 0
    ensures ring != [] &&
            var b := ring[|ring| - 1];
            StoreOk(blocks[b := blocks[b][|items| % blockSize := Some(x)]], flags, ring, first, blockSize, items + [x], released)
  {
    NextBlockNumber(blocks, flags, ring, first, blockSize, items, released);
    var tail := |items|;
    DivSuccessor(tail - 1, blockSize);
    assert InWindow(ring, first, blockSize, tail);
    forall i: nat | InWindow(ring, first, blockSize, i) && i < tail && BlockOf(ring, first, blockSize, i) == ring[|ring| - 1]
      ensures i % blockSize != tail % blockSize
    {
    }
    forall i: nat | i < tail + 1 && i !in released ensures InWindow(ring, first, blockSize, i) {}
  }

  lemma StoreRelease<T>(blocks: seq<seq<Option<T>>>, flags: seq<seq<bool>>, ring: seq<nat>, first: nat,
                        blockSize: nat, items: seq<T>, released: set<nat>, i: nat)
    requires StoreOk(blocks, flags, ring, first, blockSize, items, released) && Distinct(ring)
    requires i < |items| && i !in released
    ensures InWindow(ring, first, blockSize, i) &&
            var b := BlockOf(ring, first, blockSize, i);
            StoreOk(blocks, flags[b := flags[b][i % blockSize := true]], ring, first, blockSize, items, released + {i})
  {
    var b := BlockOf(ring, first, blockSize, i);
    forall j: nat | InWindow(ring, first, blockSize, j) && j != i && BlockOf(ring, first, blockSize, j) == b
      ensures j % blockSize != i % blockSize
    {
    }
    forall j: nat | j < |items| && j !in released + {i} ensures InWindow(ring, first, blockSize, j) { assert j !in released; }
  }

  /** The offset computation of `dequeue`, with the index header it loaded. */
  method Locate(entries: array<Entry>, localHead: nat, i: nat, blockSize: nat) returns (b: nat)
    requires localHead < entries.Length && blockSize > 0
    ensures SlotOf(localHead, entries[localHead].base, i, blockSize, entries.Length) < entries.Length
    ensures b == entries[SlotOf(localHead, entries[localHead].base, i, blockSize, entries.Length)].block
  {
    var headBase := entries[localHead].base;
    var blockBase := i - i % blockSize;
    var offset := (blockBase - headBase) / blockSize;
    b := entries[(localHead + offset) % entries.Length].block;
  }

  /** The copy loop of `new_block_index`. */
  method CopyUsed(entries: array<Entry>, front: nat, used: nat) returns (copy: array<Entry>)
    requires front < entries.Length && 0 < used <= entries.Length
    ensures fresh(copy) && copy.Length == 2 * entries.Length
    ensures forall j: nat :: j < used ==> 0 <= Slot(front, used, entries.Length, j) < entries.Length
    ensures forall j: nat :: j < used ==> copy[j] == entries[Slot(front, used, entries.Length, j)]
  {
    var size := entries.Length;
    copy := new Entry[2 * size](_ => Entry(0, 0));
    var j, i := 0, Wrap(front - used, size);
    while j < used
      invariant 0 <= j <= used && i == Wrap(front - used + j, size)
      invariant forall c: nat :: c < j ==> copy[c] == entries[Slot(front, used, size, c)]
    {
      copy[j] := entries[i];
      j := j + 1;
      i := Wrap(i + 1, size);
    }
  }

  class ExplicitProducer<T> {
    const blockSize: nat
    var tailIndex: nat
    var headIndex: nat
    var blocks: seq<seq<Option<T>>>   // element storage, by block
    var flags: seq<seq<bool>>         // the empty flags of each block
    var next: seq<nat>                // the circular list of blocks
    var tailBlock: Option<nat>
    var entries: array<Entry>         // the current block index
    var published: nat                // its `front`: the newest entry
    var front: nat                    // pr_blockIndexFront: the next slot to write
    var used: nat                     // pr_blockIndexSlotsUsed

    ghost var ring: seq<nat>          // blocks, oldest first
    ghost var first: nat              // number of the oldest block
    ghost var window: seq<Entry>      // the index entries in use, oldest first
    ghost var items: seq<T>           // everything ever enqueued
    ghost var released: set<nat>      // elements read and marked empty

    ghost predicate Valid()
      reads this, entries
    {
      && RingOk(ring, next, tailBlock) && |next| == |blocks|
      && IndexOk(entries[..], front, window) && WindowOk(window, ring, first, blockSize) && used == |ring|
      && (ring != [] ==> published == Wrap(front - 1, entries.Length))
      && StoreOk(blocks, flags, ring, first, blockSize, items, released)
      && tailIndex == |items| && headIndex <= tailIndex && (forall i: nat :: i in released ==> i < headIndex)
    }

    constructor (blockSize: nat, indexSize: nat)
      requires blockSize > 0 && indexSize > 0
      ensures Valid() && fresh(entries) && items == [] && headIndex == 0 && released == {} && this.blockSize == blockSize
    {
      this.blockSize := blockSize;
      tailIndex, headIndex, blocks, flags, next, tailBlock := 0, 0, [], [], [], None;
      entries := new Entry[indexSize](_ => Entry(0, 0));
      published, front, used := 0, 0, 0;
      ring, first, window, items, released := [], 0, [], [], {};
    }

    /** Doubles the index, copying the used slots in order. */
    method NewBlockIndex()
      requires Valid() && used == entries.Length
      modifies this`entries, this`front, this`published
      ensures Valid() && fresh(entries) && entries.Length == 2 * old(entries.Length)
    {
      var copy := CopyUsed(entries, front, used);
      IndexCopy(entries[..], front, window, copy[..]);
      entries := copy;
      front := used;
      published := used - 1;
    }

    method IsEmpty(b: nat) returns (r: bool)
      requires b < |flags| && |flags[b]| == blockSize
      ensures r <==> forall o: nat :: o < blockSize ==> flags[b][o]
    {
      var o := 0;
      while o < blockSize
        invariant 0 <= o <= blockSize
        invariant forall c: nat :: c < o ==> flags[b][c]
      {
        if !flags[b][o] { return false; }
        o := o + 1;
      }
      return true;
    }

    /** Writes the index entry of a block that starts with element `base`; a reused block leaves the window first. */
    method AddEntry(base: nat, b: nat, ghost reused: bool)
      requires IndexOk(entries[..], front, window)
      requires if reused then window != [] else |window| < entries.Length
      modifies entries, this`published, this`front, this`window
      ensures IndexOk(entries[..], front, window)
      ensures window == (if reused then old(window)[1..] else old(window)) + [Entry(base, b)]
      ensures published == Wrap(front - 1, entries.Length)
    {
      if reused { IndexRotate(entries[..], front, window, Entry(base, b)); } else { IndexGrow(entries[..], front, window, Entry(base, b)); }
      ghost var es := entries[..];
      entries[front] := Entry(base, b);
      assert entries[..] == es[front := Entry(base, b)];
      published := front;
      front := Wrap(front + 1, entries.Length);
      window := (if reused then window[1..] else window) + [Entry(base, b)];
    }

    /** The oldest block is empty: it becomes the newest and takes the element. */
    method StoreInReusedBlock(x: T) returns (b: nat)
      requires RingOk(ring, next, tailBlock) && |next| == |blocks|
      requires StoreOk(blocks, flags, ring, first, blockSize, items, released)
      requires tailIndex == |items| && tailIndex % blockSize == 0
      requires ring != [] && forall o: nat :: o < blockSize ==> flags[ring[0]][o]
      modifies this`tailBlock, this`flags, this`blocks, this`tailIndex, this`ring, this`first, this`items
      ensures RingOk(ring, next, tailBlock) && |next| == |blocks|
      ensures StoreOk(blocks, flags, ring, first, blockSize, items, released)
      ensures tailIndex == |items| && items == old(items) + [x]
      ensures ring == Rotate(old(ring)) && first == old(first) + 1 && b == old(ring)[0] && |blocks| == |old(blocks)|
      ensures old(tailIndex) == (old(first) + |old(ring)|) * blockSize
    {
      NextBlockNumber(blocks, flags, ring, first, blockSize, items, released);
      StoreReuse(blocks, flags, ring, first, blockSize, items, released, x);
      RotateRing(ring, next);
      b := next[tailBlock.value];
      assert b == ring[0] by { assert next[ring[|ring| - 1]] == Successor(ring, |ring| - 1); }
      tailBlock := Some(b);
      flags := flags[b := NoFlags(blockSize)];
      blocks := blocks[b := blocks[b][tailIndex % blockSize := Some(x)]];
      tailIndex := tailIndex + 1;
      ring, first, items := Rotate(ring), first + 1, items + [x];
    }

    method LinkNewBlock()
      requires RingOk(ring, next, tailBlock)
      modifies this`tailBlock, this`next
      ensures RingOk(ring + [|old(next)|], next, tailBlock) && |next| == |old(next)| + 1
    {
      GrowRing(ring, next, tailBlock);
      var b := |next|;
      next := LinkAfterTail(next, tailBlock);
      tailBlock := Some(b);
    }

    method FillNewBlock(x: T)
      requires StoreOk(blocks, flags, ring, first, blockSize, items, released)
      requires tailIndex == |items| && tailIndex % blockSize == 0
      modifies this`flags, this`blocks, this`tailIndex, this`ring, this`items
      ensures StoreOk(blocks, flags, ring, first, blockSize, items, released) && |blocks| == |old(blocks)| + 1
      ensures tailIndex == |items| && items == old(items) + [x] && ring == old(ring) + [|old(blocks)|]
      ensures old(tailIndex) == (first + |old(ring)|) * blockSize
    {
      NextBlockNumber(blocks, flags, ring, first, blockSize, items, released);
      var b := |blocks|;
      var storage: seq<Option<T>> := seq(blockSize, _ => None);
      StoreGrow(blocks, flags, ring, first, blockSize, items, released, x, storage[0 := Some(x)]);
      flags := flags + [NoFlags(blockSize)];
      blocks := blocks + [storage[tailIndex % blockSize := Some(x)]];
      tailIndex := tailIndex + 1;
      ring, items := ring + [b], items + [x];
    }

    /** A new block is linked behind the tail block and takes the element. */
    method StoreInNewBlock(x: T) returns (b: nat)
      requires RingOk(ring, next, tailBlock) && |next| == |blocks|
      requires StoreOk(blocks, flags, ring, first, blockSize, items, released)
      requires tailIndex == |items| && tailIndex % blockSize == 0
      modifies this`tailBlock, this`flags, this`blocks, this`next, this`tailIndex, this`ring, this`items
      ensures RingOk(ring, next, tailBlock) && |next| == |blocks|
      ensures StoreOk(blocks, flags, ring, first, blockSize, items, released)
      ensures tailIndex == |items| && items == old(items) + [x]
      ensures ring == old(ring) + [b] && |blocks| == |old(blocks)| + 1
      ensures old(tailIndex) == (first + |old(ring)|) * blockSize
    {
      b := |blocks|;
      LinkNewBlock();
      FillNewBlock(x);
    }

    method EnqueueInReusedBlock(x: T)
      requires Valid() && tailIndex % blockSize == 0 && ring != [] && forall o: nat :: o < blockSize ==> flags[ring[0]][o]
      modifies this, entries
      ensures Valid() && items == old(items) + [x] && headIndex == old(headIndex) && released == old(released)
      ensures entries == old(entries) && |blocks| == |old(blocks)|
    {
      ghost var r, w, f := ring, window, first;
      var base := tailIndex;
      var b := StoreInReusedBlock(x);
      WindowRotate(w, r, f, blockSize, base);
      AddEntry(base, b, true);
    }

    method EnqueueInNewBlock(x: T)
      requires Valid() && tailIndex % blockSize == 0 && used < entries.Length
      modifies this, entries
      ensures Valid() && items == old(items) + [x] && headIndex == old(headIndex) && released == old(released)
      ensures entries == old(entries) && |blocks| == |old(blocks)| + 1
    {
      ghost var r, w := ring, window;
      var base := tailIndex;
      var b := StoreInNewBlock(x);
      WindowGrow(w, r, first, blockSize, base, b);
      AddEntry(base, b, false);
      used := used + 1;
    }

    method FillTailBlock(x: T)
      requires RingOk(ring, next, tailBlock) && StoreOk(blocks, flags, ring, first, blockSize, items, released)
      requires tailIndex == |items| && tailIndex % blockSize != 0
      modifies this`blocks, this`tailIndex, this`items
      ensures StoreOk(blocks, flags, ring, first, blockSize, items, released) && |blocks| == |old(blocks)|
      ensures tailIndex == |items| && items == old(items) + [x]
    {
      StoreAppend(blocks, flags, ring, first, blockSize, items, released, x);
      var b := tailBlock.value;
      blocks := blocks[b := blocks[b][tailIndex % blockSize := Some(x)]];
      tailIndex := tailIndex + 1;
      items := items + [x];
    }

    /** The tail block has room. */
    method EnqueueInTailBlock(x: T)
      requires Valid() && tailIndex % blockSize != 0
      modifies this`blocks, this`tailIndex, this`items
      ensures Valid() && items == old(items) + [x] && |blocks| == |old(blocks)|
    {
      FillTailBlock(x);
    }

    /** The tail block has room, or the oldest block is empty and can follow it. */
    ghost predicate Spacious()
      requires Valid()
      reads this, entries
    {
      tailIndex % blockSize != 0 || (ring != [] && forall o: nat :: o < blockSize ==> flags[ring[0]][o])
    }

    /** canAllocate: whether the allocations this call needs succeed. */
    method Enqueue(x: T, canAllocateIndex: bool, canAllocateBlock: bool) returns (ok: bool)
      requires Valid()
      modifies this, entries
      ensures Valid() && items == (if ok then old(items) + [x] else old(items))
      ensures headIndex == old(headIndex) && released == old(released)
      ensures entries == old(entries) || fresh(entries)
      // a block is allocated exactly when the tail block is full and the oldest is not empty, the index exactly when it is full then
      ensures ok <==> old(Spacious()) || (canAllocateBlock && (old(used) < old(entries.Length) || canAllocateIndex))
      ensures |blocks| == |old(blocks)| + if ok && !old(Spacious()) then 1 else 0
      ensures entries.Length == old(entries.Length) * if !old(Spacious()) && old(used) == old(entries.Length) && canAllocateIndex then 2 else 1
    {
      if tailIndex % blockSize != 0 {
        EnqueueInTailBlock(x);
        return true;
      }
      var reusable := NextIsEmpty();
      if reusable {
        EnqueueInReusedBlock(x);
        return true;
      }
      ok := EnqueueWithAllocation(x, canAllocateIndex, canAllocateBlock);
    }

    method NextIsEmpty() returns (r: bool)
      requires Valid()
      ensures r <==> ring != [] && forall o: nat :: o < blockSize ==> flags[ring[0]][o]
    {
      r := false;
      if tailBlock.Some? {
        assert next[ring[|ring| - 1]] == Successor(ring, |ring| - 1);
        r := IsEmpty(next[tailBlock.value]);
      }
    }

    /** A new block is needed, and a larger index if the present one is full. */
    method EnqueueWithAllocation(x: T, canAllocateIndex: bool, canAllocateBlock: bool) returns (ok: bool)
      requires Valid() && tailIndex % blockSize == 0
      modifies this, entries
      ensures Valid() && items == (if ok then old(items) + [x] else old(items))
      ensures headIndex == old(headIndex) && released == old(released)
      ensures entries == old(entries) || fresh(entries)
      ensures ok <==> canAllocateBlock && (old(used) < old(entries.Length) || canAllocateIndex)
      ensures |blocks| == |old(blocks)| + if ok then 1 else 0
      ensures entries.Length == old(entries.Length) * if old(used) == old(entries.Length) && canAllocateIndex then 2 else 1
    {
      if headIndex >= tailIndex + blockSize { return false; }
      if used == entries.Length {
        if !canAllocateIndex { return false; }
        NewBlockIndex();
      }
      if !canAllocateBlock { return false; }
      EnqueueInNewBlock(x);
      return true;
    }

    /** headIndex.fetch_add(1), once the ticket protocol has granted an element. */
    method Claim() returns (i: nat)
      requires Valid() && headIndex < tailIndex
      modifies this`headIndex
      ensures Valid() && i == old(headIndex) && headIndex == i + 1 && i !in released
    {
      i := headIndex;
      headIndex := headIndex + 1;
    }

    /** The circular offset computation of `dequeue` finds the block in which `enqueue` stored the element. */
    method FindBlock(i: nat) returns (b: nat)
      requires Valid() && i < tailIndex && i !in released
      ensures InWindow(ring, first, blockSize, i) && b == BlockOf(ring, first, blockSize, i)
    {
      assert InWindow(ring, first, blockSize, i);
      ghost var es := entries[..];
      LookupSlot(es, front, window, ring, first, blockSize, i);
      assert es[published] == entries[published];
      ghost var k := SlotOf(published, es[published].base, i, blockSize, |es|);
      b := Locate(entries, published, i, blockSize);
      assert b == entries[k].block == es[k].block;
    }

    /** Reads a claimed element and marks its slot empty. */
    method Take(i: nat) returns (x: Option<T>)
      requires Valid() && i < headIndex && i !in released
      modifies this`flags, this`released
      ensures Valid() && x == Some(items[i]) && released == old(released) + {i}
    {
      var b := FindBlock(i);
      StoreRelease(blocks, flags, ring, first, blockSize, items, released, i);
      x := blocks[b][i % blockSize];
      flags := flags[b := flags[b][i % blockSize := true]];
      released := released + {i};
    }

    /** The queue: what was enqueued and not claimed yet. */
    ghost function Contents(): seq<T>
      requires Valid()
      reads this, entries
    {
      items[headIndex..]
    }

    /** A dequeue that runs from claim to release. */
    method Dequeue() returns (x: Option<T>)
      requires Valid()
      modifies this
      ensures Valid() && entries == old(entries)
      ensures if old(Contents()) == [] then x == None && Contents() == []
              else x == Some(old(Contents())[0]) && Contents() == old(Contents())[1..]
    {
      if headIndex == tailIndex { return None; }
      var i := Claim();
      x := Take(i);
    }
  }
}
