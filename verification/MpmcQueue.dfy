/**
 The multi-producer multi-consumer ring of include/Queue.hpp as a step system:
 one atomic load, store or compare-exchange per step, any number of threads,
 every interleaving, sequentially consistent memory, unbounded counters.
 */
module MpmcQueue {
  import opened Basics

  datatype Cell<T> = Cell(seqNo: int, data: Option<T>)

  /** Where a thread stands: the next atomic action it will perform. */
  datatype Pc<T> =
    | Idle
    | EnqLoadTail(v: T)
    | EnqLoadSeq(v: T, pos: nat)
    | EnqCas(v: T, pos: nat)
    | EnqWrite(v: T, pos: nat)
    | EnqPublish(pos: nat)
    | EnqDone(ok: bool)
    | DeqLoadHead
    | DeqLoadSeq(pos: nat)
    | DeqCas(pos: nat)
    | DeqRead(pos: nat)
    | DeqRelease(pos: nat, got: Option<T>)
    | DeqDone(result: Option<T>)

  /**
   Shared memory, the thread table and four history variables that no step
   reads: the value and the thread of every successful tail CAS, the thread of
   every successful head CAS, and what each finished dequeue returned.
   */
  datatype State<T> = State(
    cells: seq<Cell<T>>,
    head: nat,
    tail: nat,
    pcs: seq<Pc<T>>,
    enqueued: seq<T>,
    enqBy: seq<nat>,
    deqBy: seq<nat>,
    delivered: map<nat, Option<T>>)

  datatype Event<T> =
    | CallEnqueue(t: nat, v: T)
    | CallDequeue(t: nat)
    | Go(t: nat, weakFails: bool)   // weakFails: compare_exchange_weak may fail spuriously

  /** The constructor, for a positive capacity and a table of idle threads. */
  function Init<T>(capacity: nat, threads: nat): State<T> {
    State(seq(capacity, i => Cell(i, None)), 0, 0, seq(threads, _ => Idle), [], [], [], map[])
  }

  predicate Ready<T>(pc: Pc<T>) {
    pc.Idle? || pc.EnqDone? || pc.DeqDone?
  }

  function At<T>(s: State<T>, pos: nat): Cell<T>
    requires |s.cells| > 0
  {
    s.cells[pos % |s.cells|]
  }

  function SetPc<T>(s: State<T>, t: nat, pc: Pc<T>): State<T>
    requires t < |s.pcs|
  {
    s.(pcs := s.pcs[t := pc])
  }

  function SetCell<T>(s: State<T>, pos: nat, c: Cell<T>): State<T>
    requires |s.cells| > 0
  {
    s.(cells := s.cells[pos % |s.cells| := c])
  }

  /** One atomic action of `enqueue` or `dequeue` by thread t. */
  function Act<T>(s: State<T>, t: nat, weakFails: bool): (r: State<T>)
    requires |s.cells| > 0 && t < |s.pcs|
    ensures |r.cells| == |s.cells| && |r.pcs| == |s.pcs|
  {
    match s.pcs[t]
    case EnqLoadTail(v) => SetPc(s, t, EnqLoadSeq(v, s.tail))
    case EnqLoadSeq(v, pos) =>
      var diff := At(s, pos).seqNo - pos;
      if diff == 0 then SetPc(s, t, EnqCas(v, pos))
      else if diff < 0 then SetPc(s, t, EnqDone(false))
      else SetPc(s, t, EnqLoadTail(v))
    case EnqCas(v, pos) =>
      if s.tail == pos && !weakFails then
        SetPc(s, t, EnqWrite(v, pos)).(tail := pos + 1, enqueued := s.enqueued + [v], enqBy := s.enqBy + [t])
      else SetPc(s, t, EnqLoadSeq(v, s.tail))
    case EnqWrite(v, pos) =>
      SetPc(SetCell(s, pos, At(s, pos).(data := Some(v))), t, EnqPublish(pos))
    case EnqPublish(pos) =>
      SetPc(SetCell(s, pos, At(s, pos).(seqNo := pos + 1)), t, EnqDone(true))
    case DeqLoadHead => SetPc(s, t, DeqLoadSeq(s.head))
    case DeqLoadSeq(pos) =>
      var diff := At(s, pos).seqNo - (pos + 1);
      if diff == 0 then SetPc(s, t, DeqCas(pos))
      else if diff < 0 then SetPc(s, t, DeqDone(None))
      else SetPc(s, t, DeqLoadHead)
    case DeqCas(pos) =>
      if s.head == pos && !weakFails then
        SetPc(s, t, DeqRead(pos)).(head := pos + 1, deqBy := s.deqBy + [t])
      else SetPc(s, t, DeqLoadSeq(s.head))
    case DeqRead(pos) => SetPc(s, t, DeqRelease(pos, At(s, pos).data))
    case DeqRelease(pos, got) =>
      SetPc(SetCell(s, pos, At(s, pos).(seqNo := pos + |s.cells|)), t, DeqDone(got))
        .(delivered := s.delivered[pos := got])
    case _ => s
  }

  /** A step of the system; an event that is not enabled changes nothing. */
  function Step<T>(s: State<T>, e: Event<T>): (r: State<T>)
    requires |s.cells| > 0
    ensures |r.cells| == |s.cells| && |r.pcs| == |s.pcs|
  {
    if e.t >= |s.pcs| then s else
    match e
    case CallEnqueue(t, v) => if Ready(s.pcs[t]) then SetPc(s, t, EnqLoadTail(v)) else s
    case CallDequeue(t) => if Ready(s.pcs[t]) then SetPc(s, t, DeqLoadHead) else s
    case Go(t, weakFails) => Act(s, t, weakFails)
  }

  function Exec<T>(s: State<T>, es: seq<Event<T>>): (r: State<T>)
    requires |s.cells| > 0
    ensures |r.cells| == |s.cells| && |r.pcs| == |s.pcs|
    decreases |es|
  {
    if es == [] then s else Exec(Step(s, es[0]), es[1..])
  }

  // ----- The data phases -----

  predicate WritesAt<T>(pc: Pc<T>, q: nat) {
    (pc.EnqWrite? || pc.EnqPublish?) && pc.pos == q
  }

  predicate ReadsAt<T>(pc: Pc<T>, q: nat) {
    (pc.DeqRead? || pc.DeqRelease?) && pc.pos == q
  }

  /** Position q is claimed by a producer that has not published it yet. */
  ghost predicate Producing<T>(s: State<T>, q: nat) {
    q < |s.enqBy| && s.enqBy[q] < |s.pcs| && WritesAt(s.pcs[s.enqBy[q]], q)
  }

  /** Position q is claimed by a consumer that has not released its cell yet. */
  ghost predicate Consuming<T>(s: State<T>, q: nat) {
    q < |s.deqBy| && s.deqBy[q] < |s.pcs| && ReadsAt(s.pcs[s.deqBy[q]], q)
  }

  // ----- The inductive invariant -----

  ghost predicate Counters<T>(s: State<T>) {
    && |s.cells| >= 2
    && s.head <= s.tail <= s.head + |s.cells|
    && |s.enqueued| == |s.enqBy| == s.tail
    && |s.deqBy| == s.head
  }

  /** What the cell of position p holds while p is the next position to be claimed there. */
  ghost predicate CellOk<T>(s: State<T>, p: nat)
    requires Counters(s)
  {
    var cell := At(s, p);
    var q := p - |s.cells|;
    if q < 0 || s.tail <= q then cell.seqNo == p
    else if s.head <= q then
      if Producing(s, q) then
        && cell.seqNo == q
        && (s.pcs[s.enqBy[q]].EnqPublish? ==> cell.data == Some(s.enqueued[q]))
      else
        && cell.seqNo == q + 1
        && cell.data == Some(s.enqueued[q])
    else if Consuming(s, q) then
      && cell.seqNo == q + 1
      && cell.data == Some(s.enqueued[q])
    else cell.seqNo == p
  }

  ghost predicate CellsOk<T>(s: State<T>)
    requires Counters(s)
  {
    forall p: nat {:trigger CellOk(s, p)} :: s.tail <= p < s.tail + |s.cells| ==> CellOk(s, p)
  }

  ghost predicate ThreadOk<T>(s: State<T>, t: nat)
    requires Counters(s) && t < |s.pcs|
  {
    match s.pcs[t]
    case EnqLoadSeq(v, pos) =>
      pos <= s.tail && (pos < s.tail ==> At(s, pos).seqNo >= pos)
    case EnqCas(v, pos) =>
      pos <= s.tail && At(s, pos).seqNo >= pos && (pos == s.tail ==> At(s, pos).seqNo == pos)
    case EnqWrite(v, pos) =>
      s.head <= pos < s.tail <= pos + |s.cells| && s.enqBy[pos] == t && s.enqueued[pos] == v
    case EnqPublish(pos) =>
      s.head <= pos < s.tail <= pos + |s.cells| && s.enqBy[pos] == t
    case DeqLoadSeq(pos) =>
      pos <= s.head && (pos < s.head ==> At(s, pos).seqNo >= pos + 1)
    case DeqCas(pos) =>
      && pos <= s.head && At(s, pos).seqNo >= pos + 1
      && (pos == s.head ==> pos < s.tail && At(s, pos).seqNo == pos + 1)
    case DeqRead(pos) =>
      pos < s.head && s.tail <= pos + |s.cells| && s.deqBy[pos] == t
    case DeqRelease(pos, got) =>
      && pos < s.head && s.tail <= pos + |s.cells| && s.deqBy[pos] == t
      && got == Some(s.enqueued[pos])
    case _ => true
  }

  ghost predicate ThreadsOk<T>(s: State<T>)
    requires Counters(s)
  {
    forall t: nat {:trigger ThreadOk(s, t)} :: t < |s.pcs| ==> ThreadOk(s, t)
  }

  /** Every claimed position is either still being read or was delivered, with the right value. */
  ghost predicate DeliveredOk<T>(s: State<T>)
    requires Counters(s)
  {
    && (forall p: nat :: p in s.delivered ==>
          p < s.head && !Consuming(s, p) && s.delivered[p] == Some(s.enqueued[p]))
    && (forall p: nat {:trigger Consuming(s, p)} {:trigger p in s.delivered} :: p < s.head ==> Consuming(s, p) || p in s.delivered)
  }

  ghost predicate Inv<T>(s: State<T>) {
    Counters(s) && CellsOk(s) && ThreadsOk(s) && DeliveredOk(s)
  }

  // ----- Preservation, one lemma per kind of step -----

  predicate InData<T>(pc: Pc<T>) {
    pc.EnqWrite? || pc.EnqPublish? || pc.DeqRead? || pc.DeqRelease?
  }

  /** A cell whose contents, window and holders a step leaves alone stays as it should be. */
  lemma CellKept<T>(s: State<T>, s': State<T>, p: nat)
    requires Counters(s) && Counters(s') && |s'.cells| == |s.cells| && At(s', p) == At(s, p) && CellOk(s, p)
    requires s.enqueued <= s'.enqueued
    requires p >= |s.cells| ==>
               var q := p - |s.cells|;
               && (s'.tail <= q <==> s.tail <= q) && (s'.head <= q <==> s.head <= q)
               && Producing(s', q) == Producing(s, q) && Consuming(s', q) == Consuming(s, q)
               && (q < s.tail && Producing(s, q) && s'.pcs[s'.enqBy[q]].EnqPublish? ==> s.pcs[s.enqBy[q]].EnqPublish?)
    ensures CellOk(s', p)
  {
  }

  /** A step that only moves a thread between program points outside the data phases. */
  lemma LocalStep<T>(s: State<T>, t: nat, pc: Pc<T>)
    requires Inv(s) && t < |s.pcs| && !InData(s.pcs[t]) && !InData(pc)
    requires ThreadOk(SetPc(s, t, pc), t)
    ensures Inv(SetPc(s, t, pc))
  {
    var s' := SetPc(s, t, pc);
    forall p: nat | s'.tail <= p < s'.tail + |s'.cells| ensures CellOk(s', p) {
      assert CellOk(s, p);
      CellKept(s, s', p);
    }
    forall u: nat | u < |s'.pcs| ensures ThreadOk(s', u) { assert ThreadOk(s, u); }
    DeliveriesKept(s, s');
  }

  /** Deliveries survive a step that claims and finishes no dequeue. */
  lemma DeliveriesKept<T>(s: State<T>, s': State<T>)
    requires Counters(s) && Counters(s') && DeliveredOk(s) && s'.head == s.head && s'.delivered == s.delivered
    requires s.enqueued <= s'.enqueued
    requires forall p: nat {:trigger Consuming(s', p)} :: Consuming(s', p) == Consuming(s, p)
    ensures DeliveredOk(s')
  {
  }

  /** The two cells of one window are different cells. */
  lemma OtherCell<T>(s: State<T>, p: nat, pos: nat)
    requires |s.cells| > 0 && p != pos && (p <= pos < p + |s.cells| || pos <= p < pos + |s.cells|)
    ensures p % |s.cells| != pos % |s.cells|
  {
    if p % |s.cells| == pos % |s.cells| {
      if p <= pos { SameCellSamePosition(p, pos, |s.cells|); } else { SameCellSamePosition(pos, p, |s.cells|); }
    }
  }

  lemma EnqueueClaims<T>(s: State<T>, t: nat)
    requires Inv(s) && t < |s.pcs| && s.pcs[t].EnqCas? && s.pcs[t].pos == s.tail
    ensures Inv(Act(s, t, false))
  {
    var s' := Act(s, t, false);
    var pos := s.tail;
    var n := |s.cells|;
    assert ThreadOk(s, t);
    assert CellOk(s, pos);
    forall p: nat | s'.tail <= p < s'.tail + n ensures CellOk(s', p) {
      if p == pos + n {
        LapReturns(pos, n);
      } else {
        assert CellOk(s, p);
        CellKept(s, s', p);
      }
    }
    forall u: nat | u < |s'.pcs| ensures ThreadOk(s', u) { ClaimedCellIsNotHeld(s, t, u); }
    DeliveriesKept(s, s');
  }

  /** No thread is in a data phase one lap behind a position that can be claimed. */
  lemma TailCellNotHeld<T>(s: State<T>, t: nat, u: nat)
    requires Inv(s) && t < |s.pcs| && s.pcs[t].EnqCas? && s.pcs[t].pos == s.tail && u < |s.pcs|
    ensures InData(s.pcs[u]) ==> s.tail < s.pcs[u].pos + |s.cells|
  {
    assert ThreadOk(s, t) && ThreadOk(s, u) && CellOk(s, s.tail);
  }

  lemma ClaimedCellIsNotHeld<T>(s: State<T>, t: nat, u: nat)
    requires Inv(s) && t < |s.pcs| && s.pcs[t].EnqCas? && s.pcs[t].pos == s.tail && u < |s.pcs|
    requires Counters(Act(s, t, false))
    ensures ThreadOk(Act(s, t, false), u)
  {
    var s' := Act(s, t, false);
    assert ThreadOk(s, t) && ThreadOk(s, u);
    TailCellNotHeld(s, t, u);
    assert s'.cells == s.cells && s'.head == s.head && s'.tail == s.tail + 1;
  }

  lemma WriteCells<T>(s: State<T>, t: nat)
    requires Inv(s) && t < |s.pcs| && s.pcs[t].EnqWrite?
    ensures CellsOk(Act(s, t, false))
  {
    var s' := Act(s, t, false);
    var n, pos := |s.cells|, s.pcs[t].pos;
    assert ThreadOk(s, t);
    LapReturns(pos, n);
    forall p: nat {:trigger CellOk(s', p)} | s'.tail <= p < s'.tail + n ensures CellOk(s', p) {
      assert CellOk(s, p);
      if p != pos + n {
        OtherCell(s, p, pos + n);
        CellKept(s, s', p);
      }
    }
  }

  lemma EnqueueWrites<T>(s: State<T>, t: nat)
    requires Inv(s) && t < |s.pcs| && s.pcs[t].EnqWrite?
    ensures Inv(Act(s, t, false))
  {
    var s' := Act(s, t, false);
    assert ThreadOk(s, t);
    WriteCells(s, t);
    forall u: nat {:trigger ThreadOk(s', u)} | u < |s'.pcs| ensures ThreadOk(s', u) { assert ThreadOk(s, u); }
    DeliveriesKept(s, s');
  }

  lemma EnqueuePublishes<T>(s: State<T>, t: nat)
    requires Inv(s) && t < |s.pcs| && s.pcs[t].EnqPublish?
    ensures Inv(Act(s, t, false))
  {
    var s' := Act(s, t, false);
    var n := |s.cells|;
    var pos := s.pcs[t].pos;
    assert ThreadOk(s, t);
    LapReturns(pos, n);
    assert CellOk(s, pos + n);
    forall p: nat | s'.tail <= p < s'.tail + n ensures CellOk(s', p) {
      assert CellOk(s, p);
      if p != pos + n {
        OtherCell(s, p, pos + n);
        CellKept(s, s', p);
      }
    }
    SeqStoreKeepsThreads(s, t, pos, pos + 1, EnqDone(true));
    DeliveriesKept(s, s');
  }

  /** Storing a larger sequence number into the cell of a claimed position keeps every thread's facts. */
  lemma SeqStoreKeepsThreads<T>(s: State<T>, t: nat, pos: nat, k: int, pc: Pc<T>)
    requires Inv(s) && t < |s.pcs| && Ready(pc)
    requires pos < s.tail <= pos + |s.cells| && At(s, pos).seqNo < k
    requires At(s, pos).seqNo != pos + |s.cells|
    requires s.head <= pos ==> At(s, pos).seqNo != pos + 1
    ensures ThreadsOk(SetPc(SetCell(s, pos, At(s, pos).(seqNo := k)), t, pc))
  {
    var s' := SetPc(SetCell(s, pos, At(s, pos).(seqNo := k)), t, pc);
    var n := |s.cells|;
    LapReturns(pos, n);
    forall u: nat | u < |s'.pcs| ensures ThreadOk(s', u) {
      assert ThreadOk(s, u);
      if u != t && s.pcs[u].EnqCas? && s.pcs[u].pos == s.tail && s.tail != pos + n {
        OtherCell(s, s.tail, pos + n);
      }
      if u != t && s.pcs[u].DeqCas? && s.pcs[u].pos == s.head && s.head != pos {
        OtherCell(s, s.head, pos);
      }
    }
  }

  lemma DequeueClaims<T>(s: State<T>, t: nat)
    requires Inv(s) && t < |s.pcs| && s.pcs[t].DeqCas? && s.pcs[t].pos == s.head
    ensures Inv(Act(s, t, false))
  {
    var s' := Act(s, t, false);
    var pos := s.head;
    var n := |s.cells|;
    assert ThreadOk(s, t);
    LapReturns(pos, n);
    assert CellOk(s, pos + n);
    forall p: nat | s'.tail <= p < s'.tail + n ensures CellOk(s', p) {
      assert CellOk(s, p);
      if p != pos + n { CellKept(s, s', p); }
    }
    forall u: nat | u < |s'.pcs| ensures ThreadOk(s', u) { assert ThreadOk(s, u); }
  }

  lemma ReadCells<T>(s: State<T>, t: nat)
    requires Inv(s) && t < |s.pcs| && s.pcs[t].DeqRead?
    ensures CellsOk(Act(s, t, false))
  {
    var s' := Act(s, t, false);
    assert ThreadOk(s, t);
    forall p: nat {:trigger CellOk(s', p)} | s'.tail <= p < s'.tail + |s.cells| ensures CellOk(s', p) {
      assert CellOk(s, p);
      CellKept(s, s', p);
    }
  }

  lemma DequeueReads<T>(s: State<T>, t: nat)
    requires Inv(s) && t < |s.pcs| && s.pcs[t].DeqRead?
    ensures Inv(Act(s, t, false))
  {
    var s' := Act(s, t, false);
    var pos := s.pcs[t].pos;
    assert ThreadOk(s, t);
    LapReturns(pos, |s.cells|);
    assert CellOk(s, pos + |s.cells|);
    ReadCells(s, t);
    forall u: nat {:trigger ThreadOk(s', u)} | u < |s'.pcs| ensures ThreadOk(s', u) { assert ThreadOk(s, u); }
    DeliveriesKept(s, s');
  }

  lemma ReleaseCells<T>(s: State<T>, t: nat)
    requires Inv(s) && t < |s.pcs| && s.pcs[t].DeqRelease?
    ensures CellsOk(Act(s, t, false))
  {
    var s' := Act(s, t, false);
    var n := |s.cells|;
    var pos := s.pcs[t].pos;
    assert ThreadOk(s, t);
    LapReturns(pos, n);
    forall p: nat | s'.tail <= p < s'.tail + n ensures CellOk(s', p) {
      assert CellOk(s, p);
      if p != pos + n {
        OtherCell(s, p, pos + n);
        CellKept(s, s', p);
      }
    }
  }

  lemma ReleaseThreads<T>(s: State<T>, t: nat)
    requires Inv(s) && t < |s.pcs| && s.pcs[t].DeqRelease?
    ensures ThreadsOk(Act(s, t, false))
  {
    var s' := Act(s, t, false);
    var n, pos := |s.cells|, s.pcs[t].pos;
    assert ThreadOk(s, t);
    LapReturns(pos, n);
    assert CellOk(s, pos + n) && Consuming(s, pos);
    SeqStoreKeepsThreads(s, t, pos, pos + n, s'.pcs[t]);
    var s1 := SetPc(SetCell(s, pos, At(s, pos).(seqNo := pos + n)), t, s'.pcs[t]);
    assert s' == s1.(delivered := s'.delivered);
    forall u: nat {:trigger ThreadOk(s', u)} | u < |s'.pcs| ensures ThreadOk(s', u) { assert ThreadOk(s1, u); }
  }

  lemma DequeueReleases<T>(s: State<T>, t: nat)
    requires Inv(s) && t < |s.pcs| && s.pcs[t].DeqRelease?
    ensures Inv(Act(s, t, false))
  {
    ReleaseCells(s, t);
    ReleaseDelivers(s, t);
    ReleaseThreads(s, t);
  }

  lemma ReleaseDelivers<T>(s: State<T>, t: nat)
    requires Inv(s) && t < |s.pcs| && s.pcs[t].DeqRelease?
    ensures DeliveredOk(Act(s, t, false))
  {
    var s' := Act(s, t, false);
    assert ThreadOk(s, t);
    assert forall q: nat :: Consuming(s', q) <==> Consuming(s, q) && q != s.pcs[t].pos;
  }

  /** A sequence load that answers "free" or "published" is still true when it happens. */
  lemma LoadsSeq<T>(s: State<T>, t: nat)
    requires Inv(s) && t < |s.pcs| && (s.pcs[t].EnqLoadSeq? || s.pcs[t].DeqLoadSeq?)
    ensures Inv(Act(s, t, false))
  {
    var pos := s.pcs[t].pos;
    assert ThreadOk(s, t);
    if s.pcs[t].DeqLoadSeq? && pos == s.head {
      if pos == s.tail {
        assert CellOk(s, pos);
      }
    }
    LocalStep(s, t, Act(s, t, false).pcs[t]);
  }

  lemma ActKeepsInv<T>(s: State<T>, t: nat, weakFails: bool)
    requires Inv(s) && t < |s.pcs|
    ensures Inv(Act(s, t, weakFails))
  {
    match s.pcs[t]
    case EnqLoadTail(v) => LocalStep(s, t, EnqLoadSeq(v, s.tail));
    case EnqLoadSeq(_, _) => LoadsSeq(s, t);
    case EnqCas(v, pos) =>
      if s.tail == pos && !weakFails { EnqueueClaims(s, t); } else { LocalStep(s, t, EnqLoadSeq(v, s.tail)); }
    case EnqWrite(_, _) => EnqueueWrites(s, t);
    case EnqPublish(_) => EnqueuePublishes(s, t);
    case DeqLoadHead => LocalStep(s, t, DeqLoadSeq(s.head));
    case DeqLoadSeq(_) => LoadsSeq(s, t);
    case DeqCas(pos) =>
      if s.head == pos && !weakFails { DequeueClaims(s, t); } else { LocalStep(s, t, DeqLoadSeq(s.head)); }
    case DeqRead(_) => DequeueReads(s, t);
    case DeqRelease(_, _) => DequeueReleases(s, t);
    case _ =>
  }

  lemma StepKeepsInv<T>(s: State<T>, e: Event<T>)
    requires Inv(s)
    ensures Inv(Step(s, e))
  {
    if e.t < |s.pcs| {
      match e
      case CallEnqueue(t, v) => if Ready(s.pcs[t]) { LocalStep(s, t, EnqLoadTail(v)); }
      case CallDequeue(t) => if Ready(s.pcs[t]) { LocalStep(s, t, DeqLoadHead); }
      case Go(t, weakFails) => ActKeepsInv(s, t, weakFails);
    }
  }

  lemma InitInv<T>(capacity: nat, threads: nat)
    requires capacity >= 2
    ensures Inv(Init<T>(capacity, threads))
  {
    var s := Init<T>(capacity, threads);
    forall p: nat | s.tail <= p < s.tail + |s.cells| ensures CellOk(s, p) {
      assert p % capacity == p;
    }
  }

  lemma {:induction false} ExecKeepsInv<T>(s: State<T>, es: seq<Event<T>>)
    requires Inv(s)
    ensures Inv(Exec(s, es))
    decreases |es|
  {
    if es != [] {
      StepKeepsInv(s, es[0]);
      ExecKeepsInv(Step(s, es[0]), es[1..]);
    }
  }

  // ----- Main results -----

  /** Two different threads work on the same cell at the same time. */
  ghost predicate Clash<T>(s: State<T>, t: nat, u: nat)
    requires |s.cells| > 0
  {
    && t < |s.pcs| && u < |s.pcs| && t != u && InData(s.pcs[t]) && InData(s.pcs[u])
    && s.pcs[t].pos % |s.cells| == s.pcs[u].pos % |s.cells|
  }

  lemma NoClash<T>(s: State<T>, t: nat, u: nat)
    requires Inv(s)
    ensures !Clash(s, t, u)
  {
    if Clash(s, t, u) {
      assert ThreadOk(s, t) && ThreadOk(s, u);
      var p, q := s.pcs[t].pos, s.pcs[u].pos;
      if p <= q { SameCellSamePosition(p, q, |s.cells|); } else { SameCellSamePosition(q, p, |s.cells|); }
    }
  }

  /**
   In every run of a queue with at least two cells: the fill stays within the
   capacity, the data phases never clash, and position p is delivered with the
   value of the producer that claimed p; once no dequeue is in flight, exactly
   the claimed positions have been delivered.
   */
  lemma Fifo<T>(capacity: nat, threads: nat, es: seq<Event<T>>)
    requires capacity >= 2
    ensures
      var s := Exec(Init<T>(capacity, threads), es);
      && s.head <= s.tail <= s.head + capacity && |s.enqueued| == s.tail
      && (forall t, u :: !Clash(s, t, u))
      && (forall p :: p in s.delivered ==> p < s.head && s.delivered[p] == Some(s.enqueued[p]))
      && ((forall t: nat :: t < |s.pcs| ==> Ready(s.pcs[t])) ==>
            forall p: nat :: p < s.head ==> p in s.delivered)
  {
    var s := Exec(Init<T>(capacity, threads), es);
    InitInv<T>(capacity, threads);
    ExecKeepsInv(Init<T>(capacity, threads), es);
    forall t, u ensures !Clash(s, t, u) { NoClash(s, t, u); }
    if forall t: nat :: t < |s.pcs| ==> Ready(s.pcs[t]) {
      forall p: nat | p < s.head ensures p in s.delivered { assert !Consuming(s, p); }
    }
  }

  /** The abstract queue: values claimed by producers and not yet claimed by consumers. */
  ghost function Contents<T>(s: State<T>): seq<T>
    requires Counters(s)
  {
    s.enqueued[s.head..]
  }

  /**
   Linearization: a successful tail CAS appends its value to the abstract queue,
   a successful head CAS removes the front, every other step leaves it alone,
   and a dequeue that returns a value returns the one its head CAS removed.
   */
  lemma StepRefinesQueue<T>(s: State<T>, e: Event<T>)
    requires Inv(s)
    ensures Counters(Step(s, e))
    ensures
      var s' := Step(s, e);
      var before := if e.t < |s.pcs| then s.pcs[e.t] else Idle;
      var after := if e.t < |s.pcs| then s'.pcs[e.t] else Idle;
      if before.EnqCas? && after.EnqWrite? then
        Contents(s') == Contents(s) + [before.v] && |Contents(s)| < |s.cells|
      else if before.DeqCas? && after.DeqRead? then
        |Contents(s)| > 0 && Contents(s') == Contents(s)[1..] && s.enqueued[after.pos] == Contents(s)[0]
      else
        Contents(s') == Contents(s)
        && (before.DeqRelease? && after.DeqDone? ==>
              before.pos < |s.enqueued| && after.result == Some(s.enqueued[before.pos]))
  {
    StepKeepsInv(s, e);
    if e.t < |s.pcs| {
      assert ThreadOk(s, e.t);
      if s.pcs[e.t].EnqCas? && s.pcs[e.t].pos == s.tail { assert CellOk(s, s.tail); }
    }
  }

  /**
   A false answer is justified when it is given, at whatever access that is: the
   queue is full, or the consumer of the position one lap back has not released
   the cell yet. In particular a tail CAS that fails never answers.
   */
  lemma EnqueueFailureJustified<T>(s: State<T>, t: nat, weakFails: bool)
    requires Inv(s) && t < |s.pcs| && !Ready(s.pcs[t])
    requires Act(s, t, weakFails).pcs[t] == EnqDone(false)
    ensures s.pcs[t].EnqLoadSeq? && s.pcs[t].pos == s.tail
    ensures s.tail == s.head + |s.cells| || (s.tail >= |s.cells| && Consuming(s, s.tail - |s.cells|))
  {
    assert ThreadOk(s, t);
    assert CellOk(s, s.tail);
  }

  /** A null answer is justified likewise: the queue is empty, or the producer of the front has not published yet. */
  lemma DequeueFailureJustified<T>(s: State<T>, t: nat, weakFails: bool)
    requires Inv(s) && t < |s.pcs| && !Ready(s.pcs[t])
    requires Act(s, t, weakFails).pcs[t] == DeqDone(None)
    ensures s.pcs[t].DeqLoadSeq? && s.pcs[t].pos == s.head
    ensures s.head == s.tail || Producing(s, s.head)
  {
    assert ThreadOk(s, t);
    LapReturns(s.head, |s.cells|);
    assert s.head < s.tail ==> CellOk(s, s.head + |s.cells|);
  }

  /** The other answers: true for a position this thread claimed and published, a value for a position it claimed. */
  lemma SuccessJustified<T>(s: State<T>, t: nat, weakFails: bool)
    requires Inv(s) && t < |s.pcs| && !Ready(s.pcs[t]) && Ready(Act(s, t, weakFails).pcs[t])
    ensures
      var pc, s' := s.pcs[t], Act(s, t, weakFails);
      match s'.pcs[t]
      case EnqDone(ok) =>
        ok ==> pc.EnqPublish? && pc.pos < |s.enqueued| && s.enqBy[pc.pos] == t && At(s', pc.pos) == Cell(pc.pos + 1, Some(s.enqueued[pc.pos]))
      case DeqDone(r) =>
        r.Some? ==> pc.DeqRelease? && pc.pos < |s.deqBy| && s.deqBy[pc.pos] == t && pc.pos < |s.enqueued| && r.value == s.enqueued[pc.pos]
      case _ => false
  {
    assert ThreadOk(s, t);
    if s.pcs[t].EnqPublish? { PublishedCell(s, t); }
  }

  lemma PublishedCell<T>(s: State<T>, t: nat)
    requires Inv(s) && t < |s.pcs| && s.pcs[t].EnqPublish?
    ensures s.pcs[t].pos < |s.enqueued| && At(s, s.pcs[t].pos).data == Some(s.enqueued[s.pcs[t].pos])
  {
    assert ThreadOk(s, t);
    LapReturns(s.pcs[t].pos, |s.cells|);
    assert CellOk(s, s.pcs[t].pos + |s.cells|);
  }

  predicate Enqueueing<T>(pc: Pc<T>) {
    pc.EnqLoadTail? || pc.EnqLoadSeq? || pc.EnqCas? || pc.EnqWrite? || pc.EnqPublish?
  }

  predicate Dequeueing<T>(pc: Pc<T>) {
    pc.DeqLoadHead? || pc.DeqLoadSeq? || pc.DeqCas? || pc.DeqRead? || pc.DeqRelease?
  }

  /** A call in flight keeps its kind and, until it is stored, its value; a CAS that fails goes round the loop. */
  lemma CallKeepsKind<T>(s: State<T>, t: nat, weakFails: bool)
    requires Inv(s) && t < |s.pcs|
    ensures
      var pc, pc' := s.pcs[t], Act(s, t, weakFails).pcs[t];
      && (Enqueueing(pc) ==> (Enqueueing(pc') && (pc.EnqPublish? || pc'.EnqPublish? || pc'.v == pc.v)) || pc'.EnqDone?)
      && (Dequeueing(pc) ==> Dequeueing(pc') || pc'.DeqDone?)
      && (Ready(pc) ==> pc' == pc)
      && (pc.EnqCas? && (s.tail != pc.pos || weakFails) ==> pc' == EnqLoadSeq(pc.v, s.tail))
      && (pc.DeqCas? && (s.head != pc.pos || weakFails) ==> pc' == DeqLoadSeq(s.head))
  {
  }

  /** A call begins whenever its thread is ready, whatever the others do, and answers nothing yet. */
  lemma CallBegins<T>(s: State<T>, t: nat, v: T)
    requires |s.cells| > 0 && t < |s.pcs| && Ready(s.pcs[t])
    ensures
      var enq, deq := Step(s, CallEnqueue(t, v)), Step(s, CallDequeue(t));
      && Enqueueing(enq.pcs[t]) && !InData(enq.pcs[t]) && enq.pcs[t].v == v && enq == s.(pcs := enq.pcs) && enq.pcs == s.pcs[t := enq.pcs[t]]
      && Dequeueing(deq.pcs[t]) && !InData(deq.pcs[t]) && deq == s.(pcs := deq.pcs) && deq.pcs == s.pcs[t := deq.pcs[t]]
  {
  }

  /**
   Lock-freedom: a call goes round its loop only if a compare-exchange failed
   spuriously or another thread has claimed a position since this one loaded
   its own; a cell that is ready leads straight to the compare-exchange.
   */
  lemma RetryMeansProgress<T>(s: State<T>, t: nat, weakFails: bool)
    requires Inv(s) && t < |s.pcs|
    ensures
      var pc, pc' := s.pcs[t], Act(s, t, weakFails).pcs[t];
      && (pc.EnqLoadSeq? ==> (if At(s, pc.pos).seqNo == pc.pos then pc' == EnqCas(pc.v, pc.pos)
                              else pc' == EnqDone(false) || (pc' == EnqLoadTail(pc.v) && pc.pos < s.tail)))
      && (pc.EnqCas? ==> pc' == EnqWrite(pc.v, pc.pos) || weakFails || pc.pos < s.tail)
      && (pc.DeqLoadSeq? ==> (if At(s, pc.pos).seqNo == pc.pos + 1 then pc' == DeqCas(pc.pos)
                              else pc' == DeqDone(None) || (pc' == DeqLoadHead && pc.pos < s.head)))
      && (pc.DeqCas? ==> pc' == DeqRead(pc.pos) || weakFails || pc.pos < s.head)
  {
    assert ThreadOk(s, t);
    assert CellOk(s, s.tail);
    LapReturns(s.head, |s.cells|);
    assert s.head < s.tail ==> CellOk(s, s.head + |s.cells|);
  }

  // ----- Answers against claims -----

  /** How many positions thread t claimed. */
  function ClaimsBy(claims: seq<nat>, t: nat): nat {
    if claims == [] then 0 else ClaimsBy(claims[..|claims| - 1], t) + if claims[|claims| - 1] == t then 1 else 0
  }

  predicate AnswersTrue<T>(s: State<T>, e: Event<T>, t: nat)
    requires |s.cells| > 0
  {
    e.Go? && e.t == t < |s.pcs| && !Ready(s.pcs[t]) && Step(s, e).pcs[t] == EnqDone(true)
  }

  predicate AnswersValue<T>(s: State<T>, e: Event<T>, t: nat)
    requires |s.cells| > 0
  {
    e.Go? && e.t == t < |s.pcs| && !Ready(s.pcs[t]) && Step(s, e).pcs[t].DeqDone? && Step(s, e).pcs[t].result.Some?
  }

  ghost function TrueCount<T>(s: State<T>, es: seq<Event<T>>, t: nat): nat
    requires |s.cells| > 0
    decreases |es|
  {
    if es == [] then 0 else (if AnswersTrue(s, es[0], t) then 1 else 0) + TrueCount(Step(s, es[0]), es[1..], t)
  }

  ghost function ValueCount<T>(s: State<T>, es: seq<Event<T>>, t: nat): nat
    requires |s.cells| > 0
    decreases |es|
  {
    if es == [] then 0 else (if AnswersValue(s, es[0], t) then 1 else 0) + ValueCount(Step(s, es[0]), es[1..], t)
  }

  /** One for a thread between its claim and its answer. */
  function OwedEnqueue<T>(pc: Pc<T>): nat {
    if pc.EnqWrite? || pc.EnqPublish? then 1 else 0
  }

  function OwedDequeue<T>(pc: Pc<T>): nat {
    if pc.DeqRead? || pc.DeqRelease? then 1 else 0
  }

  lemma ClaimsByAppend(claims: seq<nat>, u: nat, t: nat)
    ensures ClaimsBy(claims + [u], t) == ClaimsBy(claims, t) + if u == t then 1 else 0
  {
    assert (claims + [u])[..|claims|] == claims;
  }

  /** Only the moving thread claims, and only it moves. */
  lemma ClaimsChange<T>(s: State<T>, u: nat, weakFails: bool)
    requires |s.cells| > 0 && u < |s.pcs|
    ensures
      var pc, s' := s.pcs[u], Act(s, u, weakFails);
      && s'.pcs == s.pcs[u := s'.pcs[u]]
      && s'.enqBy == (if OwedEnqueue(pc) == 0 && OwedEnqueue(s'.pcs[u]) == 1 then s.enqBy + [u] else s.enqBy)
      && s'.deqBy == (if OwedDequeue(pc) == 0 && OwedDequeue(s'.pcs[u]) == 1 then s.deqBy + [u] else s.deqBy)
  {
  }

  /** Leaving the data phase is answering. */
  lemma DataPhaseEnds<T>(s: State<T>, t: nat, weakFails: bool)
    requires Inv(s) && t < |s.pcs|
    ensures
      var pc, pc' := s.pcs[t], Act(s, t, weakFails).pcs[t];
      && (OwedEnqueue(pc) == 1 && OwedEnqueue(pc') == 0 <==> !Ready(pc) && pc' == EnqDone(true))
      && (OwedDequeue(pc) == 1 && OwedDequeue(pc') == 0 <==> !Ready(pc) && pc'.DeqDone? && pc'.result.Some?)
  {
    assert ThreadOk(s, t);
  }

  /** A claim is owed an answer, and an answer settles a claim. */
  lemma StepSettles<T>(s: State<T>, e: Event<T>, t: nat)
    requires Inv(s) && t < |s.pcs|
    ensures
      var s' := Step(s, e);
      && (if AnswersTrue(s, e, t) then 1 else 0) + OwedEnqueue(s'.pcs[t]) - OwedEnqueue(s.pcs[t]) == ClaimsBy(s'.enqBy, t) - ClaimsBy(s.enqBy, t)
      && (if AnswersValue(s, e, t) then 1 else 0) + OwedDequeue(s'.pcs[t]) - OwedDequeue(s.pcs[t]) == ClaimsBy(s'.deqBy, t) - ClaimsBy(s.deqBy, t)
  {
    if e.Go? && e.t < |s.pcs| {
      ClaimsChange(s, e.t, e.weakFails);
      ClaimsByAppend(s.enqBy, e.t, t);
      ClaimsByAppend(s.deqBy, e.t, t);
      if e.t == t { DataPhaseEnds(s, t, e.weakFails); }
    }
  }

  lemma {:induction false} RunSettles<T>(s: State<T>, es: seq<Event<T>>, t: nat)
    requires Inv(s) && t < |s.pcs|
    ensures
      var s' := Exec(s, es);
      && TrueCount(s, es, t) + OwedEnqueue(s'.pcs[t]) - OwedEnqueue(s.pcs[t]) == ClaimsBy(s'.enqBy, t) - ClaimsBy(s.enqBy, t)
      && ValueCount(s, es, t) + OwedDequeue(s'.pcs[t]) - OwedDequeue(s.pcs[t]) == ClaimsBy(s'.deqBy, t) - ClaimsBy(s.deqBy, t)
    decreases |es|
  {
    if es != [] {
      StepSettles(s, es[0], t);
      StepKeepsInv(s, es[0]);
      RunSettles(Step(s, es[0]), es[1..], t);
    }
  }

  /** In every run a thread has been answered true once per position it claimed, and a value once per position it took, but for the call in flight. */
  lemma AnswersMatchClaims<T>(capacity: nat, threads: nat, es: seq<Event<T>>, t: nat)
    requires capacity >= 2 && t < threads
    ensures
      var s0 := Init<T>(capacity, threads);
      var s := Exec(s0, es);
      && TrueCount(s0, es, t) + OwedEnqueue(s.pcs[t]) == ClaimsBy(s.enqBy, t)
      && ValueCount(s0, es, t) + OwedDequeue(s.pcs[t]) == ClaimsBy(s.deqBy, t)
  {
    InitInv<T>(capacity, threads);
    RunSettles(Init<T>(capacity, threads), es, t);
  }

  ghost predicate Quiescent<T>(s: State<T>) {
    forall t: nat :: t < |s.pcs| ==> Ready(s.pcs[t])
  }

  lemma QuiescentCells<T>(s: State<T>)
    requires Inv(s) && Quiescent(s)
    ensures At(s, s.tail).seqNo == s.tail <==> s.tail < s.head + |s.cells|
    ensures At(s, s.tail).seqNo < s.tail <==> s.tail == s.head + |s.cells|
    ensures At(s, s.head).seqNo == s.head + 1 <==> s.head < s.tail
    ensures At(s, s.head).seqNo < s.head + 1 <==> s.head == s.tail
  {
    assert CellOk(s, s.tail);
    LapReturns(s.head, |s.cells|);
    assert s.head < s.tail ==> CellOk(s, s.head + |s.cells|);
  }

  /** A call and the two loads that follow it. */
  function Begin<T>(s: State<T>, call: Event<T>): State<T>
    requires |s.cells| > 0
  {
    Step(Step(Step(s, call), Go(call.t, false)), Go(call.t, false))
  }

  /** The CAS, data and sequence steps of an operation that runs undisturbed. */
  function Finish<T>(s: State<T>, t: nat): State<T>
    requires |s.cells| > 0
  {
    Step(Step(Step(s, Go(t, false)), Go(t, false)), Go(t, false))
  }

  lemma EnqueueBegins<T>(s: State<T>, t: nat, v: T)
    requires |s.cells| > 0 && t < |s.pcs| && Ready(s.pcs[t]) && At(s, s.tail).seqNo <= s.tail
    ensures Begin(s, CallEnqueue(t, v)) ==
            SetPc(s, t, if At(s, s.tail).seqNo == s.tail then EnqCas(v, s.tail) else EnqDone(false))
  {
  }

  lemma EnqueueFinishes<T>(s: State<T>, t: nat, v: T)
    requires |s.cells| > 0 && t < |s.pcs| && At(s, s.tail).seqNo == s.tail
    ensures Finish(SetPc(s, t, EnqCas(v, s.tail)), t) ==
            SetPc(SetCell(s, s.tail, Cell(s.tail + 1, Some(v))), t, EnqDone(true))
            .(tail := s.tail + 1, enqueued := s.enqueued + [v], enqBy := s.enqBy + [t])
  {
  }

  lemma DequeueBegins<T>(s: State<T>, t: nat)
    requires |s.cells| > 0 && t < |s.pcs| && Ready(s.pcs[t]) && At(s, s.head).seqNo <= s.head + 1
    ensures Begin(s, CallDequeue(t)) ==
            SetPc(s, t, if At(s, s.head).seqNo == s.head + 1 then DeqCas(s.head) else DeqDone(None))
  {
  }

  lemma DequeueFinishes<T>(s: State<T>, t: nat)
    requires |s.cells| > 0 && t < |s.pcs|
    ensures
      var r := Finish(SetPc(s, t, DeqCas(s.head)), t);
      r.pcs[t] == DeqDone(At(s, s.head).data) && r.enqueued == s.enqueued && r.head == s.head + 1
  {
  }

  /** Run alone from a quiescent state, `enqueue` answers false exactly when the queue is full. */
  lemma SoloEnqueue<T>(s: State<T>, t: nat, v: T)
    requires Inv(s) && Quiescent(s) && t < |s.pcs|
    ensures
      var r := Begin(s, CallEnqueue(t, v));
      if |Contents(s)| == |s.cells| then r == SetPc(s, t, EnqDone(false))
      else
        var r' := Finish(r, t);
        r'.pcs[t] == EnqDone(true) && r'.enqueued == s.enqueued + [v] && r'.head == s.head
  {
    QuiescentCells(s);
    EnqueueBegins(s, t, v);
    if |Contents(s)| < |s.cells| { EnqueueFinishes(s, t, v); }
  }

  /** Run alone from a quiescent state, `dequeue` answers null exactly when the queue is empty. */
  lemma SoloDequeue<T>(s: State<T>, t: nat)
    requires Inv(s) && Quiescent(s) && t < |s.pcs|
    ensures
      var r := Begin(s, CallDequeue(t));
      if Contents(s) == [] then r == SetPc(s, t, DeqDone(None))
      else
        var r' := Finish(r, t);
        r'.pcs[t] == DeqDone(Some(Contents(s)[0])) && r'.enqueued == s.enqueued && r'.head == s.head + 1
  {
    QuiescentCells(s);
    DequeueBegins(s, t);
    if Contents(s) != [] {
      DequeueFinishes(s, t);
      LapReturns(s.head, |s.cells|);
      assert CellOk(s, s.head + |s.cells|) && !Producing(s, s.head);
    }
  }

  // ----- Capacity one -----

  ghost predicate Bounded<T>(s: State<T>) {
    s.head <= s.tail <= s.head + |s.cells|
  }

  /** Two enqueues by one thread, each run to its end. */
  function TwoEnqueues(): seq<Event<int>> {
    var go := Go(0, false);
    [CallEnqueue(0, 7), go, go] + [go, go, go] + [CallEnqueue(0, 8), go, go] + [go, go, go]
  }

  lemma {:induction false} ExecAppend<T>(s: State<T>, a: seq<Event<T>>, b: seq<Event<T>>)
    requires |s.cells| > 0
    ensures Exec(s, a + b) == Exec(Exec(s, a), b)
    decreases |a|
  {
    if a == [] {
      assert a + b == b;
    } else {
      assert (a + b)[0] == a[0] && (a + b)[1..] == a[1..] + b;
      ExecAppend(Step(s, a[0]), a[1..], b);
    }
  }

  lemma ExecThree<T>(s: State<T>, a: Event<T>, b: Event<T>, c: Event<T>)
    requires |s.cells| > 0
    ensures Exec(s, [a, b, c]) == Step(Step(Step(s, a), b), c)
  {
    assert [a, b, c][1..] == [b, c] && [b, c][1..] == [c] && [c][1..] == [];
    var s1 := Step(s, a);
    var s2 := Step(s1, b);
    assert Exec(s1, [b, c]) == Exec(s2, [c]);
    assert Exec(s2, [c]) == Exec(Step(s2, c), []);
  }

  /**
   With one cell "published" and "free for the next lap" are the same number:
   the second enqueue succeeds on a full queue and overwrites the first value.
   */
  lemma OneCellOverwrites()
    ensures
      var s := Exec(Init<int>(1, 1), TwoEnqueues());
      s.enqueued == [7, 8] && s.head == 0 && s.tail == 2 && s.cells == [Cell(2, Some(8))]
  {
    var go := Go(0, false);
    var s0 := Init<int>(1, 1);
    var a, b := [CallEnqueue(0, 7), go, go], [CallEnqueue(0, 8), go, go];
    var g := [go, go, go];
    ExecAppend(s0, a + g + b, g);
    ExecAppend(s0, a + g, b);
    ExecAppend(s0, a, g);
    var s1 := OneCellRound(s0, 7);
    var s2 := OneCellRound(s1, 8);
  }

  lemma OneCellRound(s: State<int>, v: int) returns (r: State<int>)
    requires |s.cells| == |s.pcs| == 1 && Ready(s.pcs[0]) && s.cells[0].seqNo == s.tail
    ensures
      var go := Go(0, false);
      r == Exec(Exec(s, [CallEnqueue(0, v), go, go]), [go, go, go])
    ensures r == s.(cells := [Cell(s.tail + 1, Some(v))], pcs := [EnqDone(true)], tail := s.tail + 1,
                    enqueued := s.enqueued + [v], enqBy := s.enqBy + [0])
  {
    var go := Go(0, false);
    EnqueueBegins(s, 0, v);
    EnqueueFinishes(s, 0, v);
    ExecThree(s, CallEnqueue(0, v), go, go);
    var m := Begin(s, CallEnqueue(0, v));
    ExecThree(m, go, go, go);
    r := Finish(m, 0);
  }

  /** The capacities the constructor accepts for which the fill is bounded in every run are those above one. */
  lemma BoundedIffTwoCells(capacity: nat)
    requires capacity >= 1
    ensures (forall threads: nat, es: seq<Event<int>> :: Bounded(Exec(Init<int>(capacity, threads), es)))
            <==> capacity >= 2
  {
    if capacity == 1 {
      OneCellOverwrites();
      assert !Bounded(Exec(Init<int>(1, 1), TwoEnqueues()));
    } else {
      forall threads: nat, es: seq<Event<int>> ensures Bounded(Exec(Init<int>(capacity, threads), es)) {
        Fifo(capacity, threads, es);
      }
    }
  }
}
