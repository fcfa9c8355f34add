/**
 The block lookup of moodycamel's `dequeue` racing with `enqueue`: the index
 pointer, its front, the base and the entry are four separate loads, and between
 any two of them the producer may rotate the index (in three stores) or replace
 it by one of twice the size, and other consumers may release elements. One
 atomic access per step, any number of consumers, every interleaving.
 */
module IndexRace {
  import opened Basics
  import BlockIndex

  type Entry = BlockIndex.Entry

  /**
   One index. `off`, `lo` and `hi` are history: block number k has slot
   (k + off) mod size, and the entries of the numbers lo up to hi are intact.
   */
  datatype Header = Header(entries: seq<Entry>, front: nat, off: nat, lo: nat, hi: nat)

  /** A consumer that has claimed element i; `top` is history: the newest block when the front was loaded. */
  datatype Consumer =
    | Idle
    | LoadIndex(i: nat)
    | LoadFront(i: nat, h: nat)
    | LoadBase(i: nat, h: nat, f: nat, top: nat)
    | LoadEntry(i: nat, h: nat, f: nat, base: nat, top: nat)
    | Located(i: nat, block: nat)

  /** A producer that is entering a new block into the index. */
  datatype Producer = Filling | StoreBase(block: nat) | StoreBlock(block: nat) | StoreFront(block: nat)

  /**
   The blocks in use have the numbers first up to `started`. Old indices stay
   in `headers`. History: `blockOf`, the block of each number, and `storedIn`,
   the tail block at the moment each element was enqueued.
   */
  datatype State = State(
    blockSize: nat,
    headers: seq<Header>,
    first: nat,
    started: nat,
    blockOf: seq<nat>,
    tailBlock: nat,
    storedIn: seq<nat>,
    tail: nat,
    head: nat,
    released: set<nat>,
    producer: Producer,
    consumers: seq<Consumer>)

  /** `spare` is the block an enqueue obtains when it cannot reuse one; None: there is none. */
  datatype Event = Enqueue(spare: Option<nat>) | Claim(t: nat) | Go(t: nat)

  function Init(blockSize: nat, size: nat, threads: nat): State
    requires size > 0
  {
    State(blockSize, [Header(seq(size, _ => BlockIndex.Entry(0, 0)), 0, 0, 0, 0)], 0, 0, [], 0, [], 0, 0, {}, Filling, seq(threads, _ => Idle))
  }

  function SlotOf(h: Header, k: nat): (r: nat)
    requires |h.entries| > 0
    ensures r < |h.entries|
  {
    (k + h.off) % |h.entries|
  }

  function Current(s: State): Header
    requires s.headers != []
  {
    s.headers[|s.headers| - 1]
  }

  function SetCurrent(s: State, h: Header): State
    requires s.headers != []
  {
    s.(headers := s.headers[|s.headers| - 1 := h])
  }

  /** The o-th element of block number k. */
  function Element(k: nat, o: nat, blockSize: nat): nat {
    k * blockSize + o
  }

  /** `is_empty` of the oldest block. */
  ghost predicate OldestEmpty(s: State) {
    s.first < s.started && forall o: nat :: o < s.blockSize ==> Element(s.first, o, s.blockSize) in s.released
  }

  /** `new_block_index`: the used entries, oldest first, at the start of an index of twice the size. */
  ghost function Doubled(s: State): Header
    requires s.headers != [] && |Current(s).entries| > 0 && s.first < s.started
  {
    var h := Current(s);
    var size := 2 * |h.entries|;
    Header(seq(size, j requires 0 <= j => if s.first + j < s.started then h.entries[SlotOf(h, s.first + j)] else BlockIndex.Entry(0, 0)),
           s.started - s.first - 1, s.first * (size - 1), s.first, s.started)
  }

  /** The start of a block: reuse the oldest if it is empty, else double a full index and take a fresh block. */
  ghost function StartBlock(s: State, spare: Option<nat>): State
    requires s.headers != [] && |Current(s).entries| > 0 && |s.blockOf| == s.started
  {
    if OldestEmpty(s) then
      var b := s.blockOf[s.first];
      SetCurrent(s, Current(s).(lo := s.first + 1)).(first := s.first + 1, tailBlock := b, producer := StoreBase(b))
    else
      var s1 := if s.started - s.first == |Current(s).entries| then s.(headers := s.headers + [Doubled(s)]) else s;
      if spare.None? then s1 else SetCurrent(s1, Current(s1).(lo := s.first)).(tailBlock := spare.value, producer := StoreBase(spare.value))
  }

  /** One access of `enqueue`. */
  ghost function Produce(s: State, spare: Option<nat>): State
    requires s.headers != [] && |Current(s).entries| > 0 && |s.blockOf| == s.started && s.first <= s.started
  {
    var h := Current(s);
    var slot := SlotOf(h, s.started);
    match s.producer
    case Filling =>
      if s.tail < s.started * s.blockSize then s.(tail := s.tail + 1, storedIn := s.storedIn + [s.tailBlock]) else StartBlock(s, spare)
    case StoreBase(b) =>
      SetCurrent(s, h.(entries := h.entries[slot := h.entries[slot].(base := s.tail)])).(producer := StoreBlock(b))
    case StoreBlock(b) =>
      SetCurrent(s, h.(entries := h.entries[slot := h.entries[slot].(block := b)])).(producer := StoreFront(b))
    case StoreFront(b) =>
      SetCurrent(s, h.(front := slot, hi := s.started + 1)).(producer := Filling, started := s.started + 1, blockOf := s.blockOf + [b])
  }

  /** The slot `dequeue` computes from the front it saw and the base it found there. */
  function Lookup(i: nat, f: nat, base: nat, blockSize: nat, size: nat): (r: nat)
    requires blockSize > 0 && size > 0
    ensures r < size
  {
    (f + (i / blockSize * blockSize - base) / blockSize) % size
  }

  function SetConsumer(s: State, t: nat, c: Consumer): State
    requires t < |s.consumers|
  {
    s.(consumers := s.consumers[t := c])
  }

  /** One access of `dequeue`; the last one releases the element. */
  ghost function Consume(s: State, t: nat): State
    requires t < |s.consumers| && s.headers != [] && s.blockSize > 0
  {
    match s.consumers[t]
    case Idle => s
    case LoadIndex(i) => SetConsumer(s, t, LoadFront(i, |s.headers| - 1))
    case LoadFront(i, h) =>
      if h < |s.headers| && s.headers[h].hi > 0 then SetConsumer(s, t, LoadBase(i, h, s.headers[h].front, s.headers[h].hi - 1)) else s
    case LoadBase(i, h, f, top) =>
      if h < |s.headers| && f < |s.headers[h].entries| then SetConsumer(s, t, LoadEntry(i, h, f, s.headers[h].entries[f].base, top)) else s
    case LoadEntry(i, h, f, base, top) =>
      if h < |s.headers| && |s.headers[h].entries| > 0 then
        var e := s.headers[h].entries;
        SetConsumer(s, t, Located(i, e[Lookup(i, f, base, s.blockSize, |e|)].block))
      else s
    case Located(i, _) => SetConsumer(s, t, Idle).(released := s.released + {i})
  }

  ghost function Step(s: State, e: Event): State
    requires Shape(s)
  {
    match e
    case Enqueue(b) => Produce(s, b)
    case Claim(t) =>
      if t < |s.consumers| && s.consumers[t].Idle? && s.head < s.tail then
        SetConsumer(s, t, LoadIndex(s.head)).(head := s.head + 1)
      else s
    case Go(t) => if t < |s.consumers| then Consume(s, t) else s
  }

  ghost predicate Shape(s: State) {
    && s.blockSize > 0 && s.headers != [] && |Current(s).entries| > 0
    && |s.blockOf| == s.started && s.first <= s.started
  }

  // ----- The inductive invariant -----

  ghost predicate HeaderOk(s: State, n: nat)
    requires n < |s.headers|
  {
    var h := s.headers[n];
    && |h.entries| > 0 && h.lo <= s.first && h.hi <= s.started == |s.blockOf| && h.hi <= h.lo + |h.entries|
    && (h.hi > 0 ==> h.front == SlotOf(h, h.hi - 1))
    && (forall k: nat {:trigger SlotOf(h, k)} :: h.lo <= k < h.hi ==> h.entries[SlotOf(h, k)] == BlockIndex.Entry(k * s.blockSize, s.blockOf[k]))
  }

  /** The element a consumer works on. */
  predicate WorksOn(c: Consumer, i: nat) {
    !c.Idle? && c.i == i
  }

  ghost predicate ConsumerOk(s: State, t: nat)
    requires Shape(s) && t < |s.consumers|
  {
    var c := s.consumers[t];
    !c.Idle? ==>
      var k := c.i / s.blockSize;
      && c.i < s.head && c.i !in s.released && s.first <= k < s.started
      && match c
         case LoadFront(_, h) => h < |s.headers| && k < s.headers[h].hi
         case LoadBase(_, h, f, top) =>
           h < |s.headers| && |s.headers[h].entries| > 0 && k <= top < s.headers[h].hi && f == SlotOf(s.headers[h], top)
         case LoadEntry(_, h, f, base, top) =>
           && h < |s.headers| && |s.headers[h].entries| > 0 && k <= top < s.headers[h].hi && f == SlotOf(s.headers[h], top)
           && base == top * s.blockSize
         case Located(_, b) => b == s.blockOf[k]
         case _ => true
  }

  ghost predicate ProducerOk(s: State)
    requires Shape(s)
  {
    var h := Current(s);
    && h.hi == s.started
    && (!s.producer.Filling? ==>
          && s.tail == s.started * s.blockSize && s.started < h.lo + |h.entries|
          && (s.producer.StoreBlock? || s.producer.StoreFront? ==> h.entries[SlotOf(h, s.started)].base == s.tail)
          && (s.producer.StoreFront? ==> h.entries[SlotOf(h, s.started)].block == s.producer.block))
  }

  /** Blocks behind the window are emptied; claims are distinct and published. */
  ghost predicate ElementsOk(s: State) {
    && s.head <= s.tail <= s.started * s.blockSize
    && (forall e: nat {:trigger e in s.released} :: e < s.first * s.blockSize ==> e in s.released)
    && (forall e: nat {:trigger e in s.released} :: e in s.released ==> e < s.head)
    && (forall t: nat, u: nat {:trigger s.consumers[t], s.consumers[u]} ::
          t < |s.consumers| && u < |s.consumers| && !s.consumers[t].Idle? && WorksOn(s.consumers[u], s.consumers[t].i) ==> t == u)
  }

  ghost predicate Inv(s: State) {
    && Shape(s) && ElementsOk(s) && ProducerOk(s)
    && (forall n: nat {:trigger HeaderOk(s, n)} :: n < |s.headers| ==> HeaderOk(s, n))
    && (forall t: nat {:trigger ConsumerOk(s, t)} :: t < |s.consumers| ==> ConsumerOk(s, t))
  }

  // ----- Arithmetic -----

  lemma Shift(a: int, b: int, n: nat)
    requires n > 0
    ensures (a % n + b) % n == (a + b) % n
  {
    var k := (a + b) / n - a / n - (a % n + b) / n;
    assert (a % n + b) % n - (a + b) % n == k * n;
    SmallMultiple(k, n);
  }

  lemma BlockBounds(e: nat, a: nat, b: nat, n: nat)
    requires n > 0 && a * n <= e < b * n
    ensures a <= e / n < b
  {
    var k := e / n;
    assert k < a ==> (k + 1) * n <= a * n;
    assert k >= b ==> k * n >= b * n;
  }

  /** Two block numbers less than a lap apart have different slots. */
  lemma OtherSlot(h: Header, k: nat, n: nat)
    requires |h.entries| > 0 && k < n < k + |h.entries|
    ensures SlotOf(h, k) != SlotOf(h, n)
  {
    if SlotOf(h, k) == SlotOf(h, n) { SameCellSamePosition(k + h.off, n + h.off, |h.entries|); }
  }

  /** From an intact front the computed slot is the slot of the wanted block. */
  lemma LookupIsSlot(h: Header, i: nat, top: nat, blockSize: nat)
    requires |h.entries| > 0 && blockSize > 0
    ensures Lookup(i, SlotOf(h, top), top * blockSize, blockSize, |h.entries|) == SlotOf(h, i / blockSize)
  {
    var k := i / blockSize;
    BlockIndex.BlockDistance(k, top, blockSize);
    Shift(top + h.off, k - top, |h.entries|);
  }

  // ----- Preservation -----

  /** A step of consumer t that leaves the indices alone. */
  lemma OnlyConsumer(s: State, s': State, t: nat)
    requires Inv(s) && t < |s.consumers| && Shape(s')
    requires s'.headers == s.headers && s'.first == s.first && s'.started == s.started && s'.blockOf == s.blockOf
    requires s'.blockSize == s.blockSize && s'.producer == s.producer && s'.tail == s.tail && s.head <= s'.head
    requires |s'.consumers| == |s.consumers| && s'.consumers == s.consumers[t := s'.consumers[t]]
    requires forall e: nat {:trigger e in s'.released} :: e in s'.released ==> e in s.released || WorksOn(s.consumers[t], e)
    requires ElementsOk(s') && ConsumerOk(s', t)
    ensures Inv(s')
  {
    forall n: nat {:trigger HeaderOk(s', n)} | n < |s'.headers| ensures HeaderOk(s', n) { assert HeaderOk(s, n); }
    forall u: nat {:trigger ConsumerOk(s', u)} | u < |s'.consumers| ensures ConsumerOk(s', u) {
      assert ConsumerOk(s, u);
    }
  }

  /** The order of the four loads. */
  predicate Follows(c: Consumer, c': Consumer) {
    match c
    case Idle => c' == Idle
    case LoadIndex(i) => c'.LoadFront? && c'.i == i
    case LoadFront(i, _) => c'.LoadBase? && c'.i == i
    case LoadBase(i, _, _, _) => c'.LoadEntry? && c'.i == i
    case LoadEntry(i, _, _, _, _) => c'.Located? && c'.i == i
    case Located(_, _) => c' == Idle
  }

  /** The four loads, one at a time: each succeeds and leads to the next. */
  lemma LookupLoads(s: State, t: nat)
    requires Inv(s) && t < |s.consumers| && !s.consumers[t].Located?
    ensures Shape(Consume(s, t)) && |Consume(s, t).consumers| == |s.consumers| && ConsumerOk(Consume(s, t), t)
    ensures Follows(s.consumers[t], Consume(s, t).consumers[t])
  {
    var c := s.consumers[t];
    assert ConsumerOk(s, t) && HeaderOk(s, |s.headers| - 1);
    if c.LoadFront? || c.LoadBase? || c.LoadEntry? { assert HeaderOk(s, c.h); }
    if c.LoadEntry? { LookupIsSlot(s.headers[c.h], c.i, c.top, s.blockSize); }
  }

  lemma LoadStep(s: State, t: nat)
    requires Inv(s) && t < |s.consumers| && !s.consumers[t].Located?
    ensures Inv(Consume(s, t))
  {
    LookupLoads(s, t);
    OnlyConsumer(s, Consume(s, t), t);
  }

  lemma ReleaseStep(s: State, t: nat)
    requires Inv(s) && t < |s.consumers| && s.consumers[t].Located?
    ensures Inv(Consume(s, t))
  {
    assert ConsumerOk(s, t);
    OnlyConsumer(s, Consume(s, t), t);
  }

  lemma ClaimStep(s: State, t: nat)
    requires Inv(s) && t < |s.consumers| && s.consumers[t].Idle? && s.head < s.tail
    ensures Inv(Step(s, Claim(t)))
  {
    var s' := Step(s, Claim(t));
    ClaimedBlock(s);
    forall u: nat {:trigger s.consumers[u]} | u < |s.consumers| ensures !WorksOn(s.consumers[u], s.head) { assert ConsumerOk(s, u); }
    OnlyConsumer(s, s', t);
  }

  /** The next element to claim is in a block of the window. */
  lemma ClaimedBlock(s: State)
    requires Inv(s) && s.head < s.tail
    ensures s.head !in s.released && s.first <= s.head / s.blockSize < s.started
  {
    assert s.head !in s.released;
    BlockBounds(s.head, s.first, s.started, s.blockSize);
  }

  /** A producer step that changes the current index in a slot outside the intact range, or its front. */
  lemma ProducerStores(s: State, s': State)
    requires Inv(s) && Shape(s') && s' == SetCurrent(s, Current(s')).(producer := s'.producer, started := s'.started, blockOf := s'.blockOf)
    requires s'.started >= s.started && |s'.blockOf| == s'.started && s.blockOf <= s'.blockOf
    requires ElementsOk(s') && ProducerOk(s') && HeaderOk(s', |s'.headers| - 1)
    requires Current(s').off == Current(s).off && Current(s').lo == Current(s).lo && Current(s').hi >= Current(s).hi
    requires |Current(s').entries| == |Current(s).entries|
    ensures Inv(s')
  {
    forall n: nat {:trigger HeaderOk(s', n)} | n < |s'.headers| ensures HeaderOk(s', n) {
      assert HeaderOk(s, n);
    }
    forall t: nat {:trigger ConsumerOk(s', t)} | t < |s'.consumers| ensures ConsumerOk(s', t) {
      assert ConsumerOk(s, t);
    }
  }

  lemma StoreBaseStep(s: State, spare: Option<nat>)
    requires Inv(s) && s.producer.StoreBase?
    ensures Inv(Produce(s, spare))
  {
    var s', h := Produce(s, spare), Current(s);
    assert HeaderOk(s, |s.headers| - 1);
    forall k: nat {:trigger SlotOf(h, k)} | h.lo <= k < h.hi ensures SlotOf(h, k) != SlotOf(h, s.started) { OtherSlot(h, k, s.started); }
    forall k: nat {:trigger SlotOf(Current(s'), k)} | h.lo <= k < h.hi
      ensures Current(s').entries[SlotOf(Current(s'), k)] == BlockIndex.Entry(k * s.blockSize, s.blockOf[k]) { assert SlotOf(Current(s'), k) == SlotOf(h, k); }
    ProducerStores(s, s');
  }

  lemma StoreBlockStep(s: State, spare: Option<nat>)
    requires Inv(s) && s.producer.StoreBlock?
    ensures Inv(Produce(s, spare))
  {
    var s', h := Produce(s, spare), Current(s);
    assert HeaderOk(s, |s.headers| - 1);
    forall k: nat {:trigger SlotOf(h, k)} | h.lo <= k < h.hi ensures SlotOf(h, k) != SlotOf(h, s.started) { OtherSlot(h, k, s.started); }
    forall k: nat {:trigger SlotOf(Current(s'), k)} | h.lo <= k < h.hi
      ensures Current(s').entries[SlotOf(Current(s'), k)] == BlockIndex.Entry(k * s.blockSize, s.blockOf[k]) { assert SlotOf(Current(s'), k) == SlotOf(h, k); }
    ProducerStores(s, s');
  }

  lemma EnteredHeader(s: State, spare: Option<nat>)
    requires Inv(s) && s.producer.StoreFront?
    ensures Shape(Produce(s, spare)) && HeaderOk(Produce(s, spare), |s.headers| - 1)
  {
    var s', h := Produce(s, spare), Current(s);
    var h' := Current(s');
    assert HeaderOk(s, |s.headers| - 1);
    forall k: nat {:trigger SlotOf(h', k)} | h'.lo <= k < h'.hi ensures h'.entries[SlotOf(h', k)] == BlockIndex.Entry(k * s.blockSize, s'.blockOf[k]) {
      assert SlotOf(h', k) == SlotOf(h, k);
    }
  }

  lemma StoreFrontStep(s: State, spare: Option<nat>)
    requires Inv(s) && s.producer.StoreFront?
    ensures Inv(Produce(s, spare))
  {
    EnteredHeader(s, spare);
    assert (s.started + 1) * s.blockSize == s.started * s.blockSize + s.blockSize;
    ProducerStores(s, Produce(s, spare));
  }

  lemma ReleasedBelow(s: State, e: nat)
    requires Inv(s) && OldestEmpty(s) && e < (s.first + 1) * s.blockSize
    ensures e in s.released
  {
    if e >= s.first * s.blockSize {
      assert (s.first + 1) * s.blockSize == s.first * s.blockSize + s.blockSize;
      assert e == Element(s.first, e - s.first * s.blockSize, s.blockSize);
    }
  }

  /** A consumer's element is not released, so its block is not the one that leaves. */
  lemma NotOldest(s: State, t: nat)
    requires Inv(s) && OldestEmpty(s) && t < |s.consumers| && !s.consumers[t].Idle?
    ensures s.consumers[t].i / s.blockSize > s.first
  {
    assert ConsumerOk(s, t);
    var i := s.consumers[t].i;
    if i < (s.first + 1) * s.blockSize { ReleasedBelow(s, i); }
    BlockBounds(i, s.first + 1, s.started, s.blockSize);
  }

  /** Giving up the oldest entries of the current index leaves every index intact. */
  lemma RaiseLo(s: State, s': State, lo: nat)
    requires Inv(s) && Current(s).lo <= lo <= s'.first && s.first <= s'.first && s'.headers == SetCurrent(s, Current(s).(lo := lo)).headers
    requires s'.started == s.started && s'.blockOf == s.blockOf && s'.blockSize == s.blockSize
    ensures forall n: nat {:trigger HeaderOk(s', n)} :: n < |s'.headers| ==> HeaderOk(s', n)
  {
    forall n: nat {:trigger HeaderOk(s', n)} | n < |s'.headers| ensures HeaderOk(s', n) {
      assert HeaderOk(s, n);
      var h, h' := s.headers[n], s'.headers[n];
      forall k: nat {:trigger SlotOf(h', k)} | h'.lo <= k < h'.hi ensures h'.entries[SlotOf(h', k)] == BlockIndex.Entry(k * s.blockSize, s.blockOf[k]) {
        assert SlotOf(h', k) == SlotOf(h, k);
      }
    }
  }

  lemma ReuseElements(s: State, s': State)
    requires Inv(s) && OldestEmpty(s) && s'.first == s.first + 1 && s'.started == s.started && s'.blockSize == s.blockSize
    requires s'.head == s.head && s'.tail == s.tail && s'.released == s.released && s'.consumers == s.consumers
    ensures ElementsOk(s')
  {
    forall e: nat {:trigger e in s'.released} | e < s'.first * s.blockSize ensures e in s'.released { ReleasedBelow(s, e); }
  }

  lemma ReuseConsumers(s: State, s': State)
    requires Inv(s) && OldestEmpty(s) && Shape(s') && s'.first == s.first + 1 && s'.started == s.started && s'.blockSize == s.blockSize
    requires s'.head == s.head && s'.released == s.released && s'.consumers == s.consumers && s'.blockOf == s.blockOf
    requires s'.headers == SetCurrent(s, Current(s).(lo := s.first + 1)).headers
    ensures forall t: nat {:trigger ConsumerOk(s', t)} :: t < |s'.consumers| ==> ConsumerOk(s', t)
  {
    forall t: nat {:trigger ConsumerOk(s', t)} | t < |s'.consumers| ensures ConsumerOk(s', t) {
      assert ConsumerOk(s, t);
      if !s.consumers[t].Idle? { NotOldest(s, t); }
    }
  }

  /** The oldest block leaves the window. */
  lemma ReuseStep(s: State, spare: Option<nat>)
    requires Inv(s) && s.producer.Filling? && s.tail >= s.started * s.blockSize && OldestEmpty(s)
    ensures Inv(Produce(s, spare))
  {
    var s' := Produce(s, spare);
    assert HeaderOk(s, |s.headers| - 1);
    RaiseLo(s, s', s.first + 1);
    ReuseElements(s, s');
    ReuseConsumers(s, s');
  }

  /** A new block enters a window that has room. */
  lemma TakeStep(s: State, b: nat)
    requires Inv(s) && s.producer.Filling? && s.tail == s.started * s.blockSize && s.started - s.first < |Current(s).entries|
    ensures Inv(SetCurrent(s, Current(s).(lo := s.first)).(tailBlock := b, producer := StoreBase(b)))
  {
    var s' := SetCurrent(s, Current(s).(lo := s.first)).(tailBlock := b, producer := StoreBase(b));
    assert HeaderOk(s, |s.headers| - 1);
    RaiseLo(s, s', s.first);
    forall t: nat {:trigger ConsumerOk(s', t)} | t < |s'.consumers| ensures ConsumerOk(s', t) { assert ConsumerOk(s, t); }
  }

  /** In the doubled index the j-th oldest block has slot j. */
  lemma DoubledSlot(s: State, j: nat)
    requires Shape(s) && s.first < s.started && j < 2 * |Current(s).entries|
    ensures |Doubled(s).entries| == 2 * |Current(s).entries| && SlotOf(Doubled(s), s.first + j) == j
  {
    var size := 2 * |Current(s).entries|;
    var a := s.first + j + s.first * (size - 1);
    assert a == s.first * size + j;
    SmallRemainder(j, size);
    assert (a / size - s.first) * size == j - a % size;
    SmallMultiple(a / size - s.first, size);
  }

  lemma DoubledOk(s: State)
    requires Inv(s) && s.started - s.first == |Current(s).entries|
    ensures
      var s' := s.(headers := s.headers + [Doubled(s)]);
      HeaderOk(s', |s.headers|)
  {
    var s', h, g := s.(headers := s.headers + [Doubled(s)]), Current(s), Doubled(s);
    assert HeaderOk(s, |s.headers| - 1);
    forall k: nat {:trigger SlotOf(g, k)} | g.lo <= k < g.hi ensures g.entries[SlotOf(g, k)] == BlockIndex.Entry(k * s.blockSize, s.blockOf[k]) {
      DoubledSlot(s, k - s.first);
      assert h.entries[SlotOf(h, k)] == BlockIndex.Entry(k * s.blockSize, s.blockOf[k]);
    }
    DoubledSlot(s, s.started - s.first - 1);
  }

  /** A full index is replaced; consumers that loaded the old one go on with it, unchanged for good. */
  lemma DoubleStep(s: State)
    requires Inv(s) && s.producer.Filling? && s.started - s.first == |Current(s).entries|
    ensures Inv(s.(headers := s.headers + [Doubled(s)]))
  {
    var s' := s.(headers := s.headers + [Doubled(s)]);
    DoubledOk(s);
    DoubledSlot(s, 0);
    forall n: nat {:trigger HeaderOk(s', n)} | n < |s'.headers| ensures HeaderOk(s', n) {
      if n < |s.headers| { assert HeaderOk(s, n); }
    }
    forall t: nat {:trigger ConsumerOk(s', t)} | t < |s'.consumers| ensures ConsumerOk(s', t) { assert ConsumerOk(s, t); }
  }

  lemma FillStep(s: State, spare: Option<nat>)
    requires Inv(s) && s.producer.Filling? && s.tail < s.started * s.blockSize
    ensures Inv(Produce(s, spare))
  {
    var s' := Produce(s, spare);
    forall n: nat {:trigger HeaderOk(s', n)} | n < |s'.headers| ensures HeaderOk(s', n) { assert HeaderOk(s, n); }
    forall t: nat {:trigger ConsumerOk(s', t)} | t < |s'.consumers| ensures ConsumerOk(s', t) { assert ConsumerOk(s, t); }
  }

  lemma StartStep(s: State, spare: Option<nat>)
    requires Inv(s) && s.producer.Filling? && s.tail >= s.started * s.blockSize && !OldestEmpty(s)
    ensures Inv(Produce(s, spare))
  {
    assert HeaderOk(s, |s.headers| - 1);
    if s.started - s.first == |Current(s).entries| {
      var s1 := s.(headers := s.headers + [Doubled(s)]);
      DoubleStep(s);
      DoubledSlot(s, 0);
      if spare.Some? { TakeStep(s1, spare.value); }
    } else if spare.Some? {
      TakeStep(s, spare.value);
    }
  }

  lemma ProduceKeepsInv(s: State, spare: Option<nat>)
    requires Inv(s)
    ensures Inv(Produce(s, spare))
  {
    match s.producer
    case Filling =>
      if s.tail < s.started * s.blockSize { FillStep(s, spare); }
      else if OldestEmpty(s) { ReuseStep(s, spare); }
      else { StartStep(s, spare); }
    case StoreBase(_) => StoreBaseStep(s, spare);
    case StoreBlock(_) => StoreBlockStep(s, spare);
    case StoreFront(_) => StoreFrontStep(s, spare);
  }

  lemma StepKeepsInv(s: State, e: Event)
    requires Inv(s)
    ensures Inv(Step(s, e))
  {
    match e
    case Enqueue(spare) => ProduceKeepsInv(s, spare);
    case Claim(t) => if t < |s.consumers| && s.consumers[t].Idle? && s.head < s.tail { ClaimStep(s, t); }
    case Go(t) =>
      if t < |s.consumers| {
        if s.consumers[t].Located? { ReleaseStep(s, t); } else { LoadStep(s, t); }
      }
  }

  /** Element e went into the block of its number. */
  ghost predicate StoredAt(s: State, e: nat)
    requires e < |s.storedIn| && s.blockSize > 0
  {
    e / s.blockSize < |s.blockOf| && s.storedIn[e] == s.blockOf[e / s.blockSize]
  }

  ghost predicate StoredOk(s: State)
    requires Shape(s)
  {
    && |s.storedIn| == s.tail && (s.started > 0 ==> (s.started - 1) * s.blockSize <= s.tail)
    && (forall e: nat {:trigger StoredAt(s, e)} :: e < s.tail ==> StoredAt(s, e))
    && (if s.producer.Filling? then s.started > 0 ==> s.tailBlock == s.blockOf[s.started - 1] else s.tailBlock == s.producer.block)
  }

  /** A step that stores no element. */
  lemma StoredKept(s: State, s': State)
    requires Shape(s) && Shape(s') && StoredOk(s) && s'.blockSize == s.blockSize && s'.tail == s.tail
    requires s'.storedIn == s.storedIn && s.blockOf <= s'.blockOf
    requires s'.started == s.started || s'.tail == s.started * s.blockSize == (s'.started - 1) * s'.blockSize
    requires if s'.producer.Filling? then s'.started > 0 ==> s'.tailBlock == s'.blockOf[s'.started - 1] else s'.tailBlock == s'.producer.block
    ensures StoredOk(s')
  {
    forall e: nat {:trigger StoredAt(s', e)} | e < s'.tail ensures StoredAt(s', e) { assert StoredAt(s, e); }
  }

  lemma FillStores(s: State, spare: Option<nat>)
    requires Inv(s) && StoredOk(s) && s.producer.Filling? && s.tail < s.started * s.blockSize
    ensures Shape(Produce(s, spare)) && StoredOk(Produce(s, spare))
  {
    var s' := Produce(s, spare);
    BlockBounds(s.tail, s.started - 1, s.started, s.blockSize);
    forall x: nat {:trigger StoredAt(s', x)} | x < s'.tail ensures StoredAt(s', x) {
      if x < s.tail { assert StoredAt(s, x); }
    }
  }

  lemma StepKeepsStored(s: State, e: Event)
    requires Inv(s) && StoredOk(s) && Inv(Step(s, e))
    ensures StoredOk(Step(s, e))
  {
    if e.Enqueue? && s.producer.Filling? && s.tail < s.started * s.blockSize {
      FillStores(s, e.spare);
    } else {
      StoredKept(s, Step(s, e));
    }
  }

  lemma InitInv(blockSize: nat, size: nat, threads: nat)
    requires blockSize > 0 && size > 0
    ensures Inv(Init(blockSize, size, threads)) && StoredOk(Init(blockSize, size, threads))
  {
    var s := Init(blockSize, size, threads);
    assert HeaderOk(s, 0);
  }

  /** An index that was replaced never changes again. */
  lemma OldIndexFrozen(s: State, e: Event, n: nat)
    requires Inv(s) && n < |s.headers| - 1
    ensures n < |Step(s, e).headers| - 1 && Step(s, e).headers[n] == s.headers[n]
  {
  }

  lemma SlotsFixed(s: State, e: Event, n: nat)
    requires Inv(s) && n < |s.headers|
    ensures n < |Step(s, e).headers| && Step(s, e).blockSize == s.blockSize && s.blockOf <= Step(s, e).blockOf
    ensures
      var h, h' := s.headers[n], Step(s, e).headers[n];
      h'.off == h.off && |h'.entries| == |h.entries| && h.hi <= h'.hi
  {
  }

  /** No step changes the entry of a block that stays in the window, in any index that has it. */
  lemma EntryStays(s: State, e: Event, n: nat, k: nat)
    requires Inv(s) && n < |s.headers| && s.first <= k < s.headers[n].hi && Step(s, e).first <= k
    ensures |s.headers[n].entries| > 0 && n < |Step(s, e).headers|
    ensures
      var slot := SlotOf(s.headers[n], k);
      slot < |Step(s, e).headers[n].entries| && Step(s, e).headers[n].entries[slot] == s.headers[n].entries[slot]
  {
    StepKeepsInv(s, e);
    SlotsFixed(s, e, n);
    assert HeaderOk(s, n) && HeaderOk(Step(s, e), n);
    assert SlotOf(Step(s, e).headers[n], k) == SlotOf(s.headers[n], k);
  }

  /** The state after a sequence of events; Inv keeps every event enabled. */
  ghost function Exec(s: State, es: seq<Event>): (r: State)
    requires Inv(s) && StoredOk(s)
    ensures Inv(r) && StoredOk(r)
    decreases |es|
  {
    if es == [] then s else
    StepKeepsInv(s, es[0]);
    StepKeepsStored(s, es[0]);
    Exec(Step(s, es[0]), es[1..])
  }

  /** The state a run from the constructor reaches. */
  ghost function Reached(blockSize: nat, size: nat, threads: nat, es: seq<Event>): (r: State)
    requires blockSize > 0 && size > 0
    ensures Inv(r) && StoredOk(r)
  {
    InitInv(blockSize, size, threads);
    Exec(Init(blockSize, size, threads), es)
  }

  /**
   Whatever happens between the four loads, the block that a consumer finds for
   its claimed element is the block in which `enqueue` stored it.
   */
  lemma RacingLookup(blockSize: nat, size: nat, threads: nat, es: seq<Event>, t: nat)
    requires blockSize > 0 && size > 0
    ensures
      var s := Reached(blockSize, size, threads, es);
      t < |s.consumers| && s.consumers[t].Located? ==>
        var i := s.consumers[t].i;
        i < |s.storedIn| && s.consumers[t].block == s.storedIn[i] && i !in s.released
  {
    var s := Reached(blockSize, size, threads, es);
    if t < |s.consumers| {
      assert ConsumerOk(s, t);
      if !s.consumers[t].Idle? { assert StoredAt(s, s.consumers[t].i); }
    }
  }

  // ----- Progress -----

  /** How many accesses of `enqueue` are left before the one that publishes an element. */
  function Rank(s: State): nat {
    match s.producer
    case Filling => if s.tail < s.started * s.blockSize then 0 else 4
    case StoreBase(_) => 3
    case StoreBlock(_) => 2
    case StoreFront(_) => 1
  }

  /** The start of a block: the oldest one if it is empty, else the spare one, in an index of twice the size if the present one is full. */
  lemma BlockStart(s: State, b: nat)
    requires Inv(s) && s.producer.Filling? && s.tail == s.started * s.blockSize
    ensures
      var s' := Produce(s, Some(b));
      && s'.producer == StoreBase(s'.tailBlock)
      && (if OldestEmpty(s) then
            s'.first == s.first + 1 && s'.tailBlock == s.blockOf[s.first] && |s'.headers| == |s.headers|
          else
            && s'.first == s.first && s'.tailBlock == b
            && |s'.headers| == |s.headers| + (if s.started - s.first == |Current(s).entries| then 1 else 0)
            && |Current(s').entries| == |Current(s).entries| * (if s.started - s.first == |Current(s).entries| then 2 else 1))
  {
  }

  lemma RankFalls(s: State, b: nat)
    requires Inv(s)
    ensures
      var s' := Produce(s, Some(b));
      && s'.head == s.head && s'.consumers == s.consumers && s'.released == s.released && s'.blockSize == s.blockSize
      && (if Rank(s) == 0 then s'.tail == s.tail + 1 && s'.storedIn == s.storedIn + [s.tailBlock]
          else s'.tail == s.tail && s'.storedIn == s.storedIn && Rank(s') < Rank(s))
  {
    assert (s.started + 1) * s.blockSize == s.started * s.blockSize + s.blockSize;
  }

  /** Undisturbed and with blocks to spare, at most five accesses publish one element more. */
  lemma {:induction false} EnqueueCompletes(s: State, b: nat) returns (es: seq<Event>)
    requires Inv(s) && StoredOk(s)
    ensures |es| <= Rank(s) + 1 && forall i: nat :: i < |es| ==> es[i] == Enqueue(Some(b))
    ensures var r := Exec(s, es);
      r.tail == s.tail + 1 && |r.storedIn| == |s.storedIn| + 1 && s.storedIn <= r.storedIn && r.head == s.head && r.consumers == s.consumers
    decreases Rank(s)
  {
    var e := Enqueue(Some(b));
    RankFalls(s, b);
    StepKeepsInv(s, e);
    StepKeepsStored(s, e);
    var s' := Step(s, e);
    if Rank(s) == 0 {
      es := [e];
      assert es[1..] == [] && Exec(s', []) == s';
    } else {
      var rest := EnqueueCompletes(s', b);
      es := [e] + rest;
      assert es[1..] == rest;
    }
  }

  /** A claim takes the next element, for one consumer only. */
  lemma ClaimTakesNext(s: State, t: nat)
    requires Inv(s) && t < |s.consumers|
    ensures
      var s' := Step(s, Claim(t));
      if s.consumers[t].Idle? && s.head < s.tail then
        && s'.head == s.head + 1 && s'.consumers == s.consumers[t := LoadIndex(s.head)]
        && forall u: nat :: u < |s.consumers| ==> !WorksOn(s.consumers[u], s.head)
      else s' == s
  {
    forall u: nat | u < |s.consumers| ensures !WorksOn(s.consumers[u], s.head) { assert ConsumerOk(s, u); }
  }

  lemma FourSteps(s: State, s1: State, s2: State, s3: State, s4: State, e: Event)
    requires Inv(s) && StoredOk(s) && Inv(s1) && StoredOk(s1) && Inv(s2) && StoredOk(s2) && Inv(s3) && StoredOk(s3) && Inv(s4) && StoredOk(s4)
    requires s1 == Step(s, e) && s2 == Step(s1, e) && s3 == Step(s2, e) && s4 == Step(s3, e)
    ensures Exec(s, [e, e, e, e]) == s4
  {
    assert [e, e, e, e][1..] == [e, e, e] && [e, e, e][1..] == [e, e] && [e, e][1..] == [e] && [e][1..] == [];
    assert Exec(s4, []) == s4;
    assert Exec(s3, [e]) == s4;
    assert Exec(s2, [e, e]) == s4;
    assert Exec(s1, [e, e, e]) == s4;
  }

  /** Undisturbed, four accesses find the block and a fifth releases the element. */
  lemma LookupCompletes(s: State, t: nat)
    requires Inv(s) && StoredOk(s) && t < |s.consumers| && s.consumers[t].LoadIndex?
    ensures
      var i := s.consumers[t].i;
      var r := Exec(s, [Go(t), Go(t), Go(t), Go(t)]);
      && t < |r.consumers| && i < |s.storedIn| && r.consumers[t] == Located(i, s.storedIn[i])
      && Consume(r, t).released == s.released + {i} && t < |Consume(r, t).consumers| && Consume(r, t).consumers[t] == Idle
  {
    var i := s.consumers[t].i;
    var s1 := LookupAccess(s, t);
    var s2 := LookupAccess(s1, t);
    var s3 := LookupAccess(s2, t);
    var s4 := LookupAccess(s3, t);
    FourSteps(s, s1, s2, s3, s4, Go(t));
    assert ConsumerOk(s4, t) && StoredAt(s4, i);
  }

  lemma LookupAccess(s: State, t: nat) returns (s': State)
    requires Inv(s) && StoredOk(s) && t < |s.consumers| && !s.consumers[t].Located?
    ensures s' == Step(s, Go(t)) && Inv(s') && StoredOk(s') && |s'.consumers| == |s.consumers|
    ensures Follows(s.consumers[t], s'.consumers[t]) && s'.storedIn == s.storedIn && s'.released == s.released
  {
    s' := Step(s, Go(t));
    StepKeepsInv(s, Go(t));
    StepKeepsStored(s, Go(t));
    LookupLoads(s, t);
  }
}
