/**
 The receiver, sequencer and database writer of FeederNet connected by two
 single-producer single-consumer rings and one message pool. The rings are
 modelled access by access (include/Queue.hpp), the pool by its free chain (one
 atomic pop or push per call), the threads by where they hold messages. All
 interleavings, all outcomes of the network and of gap recovery.
 */
module Pipeline {
  import opened Basics

  // ----- The single-producer single-consumer ring -----

  /** `sent` and `got` are history: what was published and what was read, in order. */
  datatype Ring = Ring(buf: seq<Option<nat>>, head: nat, tail: nat, sent: seq<nat>, got: seq<nat>)

  datatype Enq = LoadTail(m: nat) | CheckHead(m: nat, pos: nat) | Write(m: nat, pos: nat) | StoreTail(m: nat, pos: nat)
  datatype EnqOut = EnqMore(e: Enq) | Accepted | Refused

  datatype Deq = LoadHead | CheckTail(seen: nat) | Claim | Read(pos: nat)
  datatype DeqOut = DeqMore(d: Deq) | Answer(m: Option<nat>)

  function NewRing(capacity: nat): Ring {
    Ring(seq(capacity, _ => None), 0, 0, [], [])
  }

  /** One access of `enqueue`. */
  function EnqAct(q: Ring, e: Enq): (Ring, EnqOut)
    requires |q.buf| > 0
  {
    match e
    case LoadTail(m) => (q, EnqMore(CheckHead(m, q.tail)))
    case CheckHead(m, pos) =>
      if pos + 1 - q.head > |q.buf| then (q, Refused) else (q, EnqMore(Write(m, pos)))
    case Write(m, pos) => (q.(buf := q.buf[pos % |q.buf| := Some(m)]), EnqMore(StoreTail(m, pos)))
    case StoreTail(m, pos) => (q.(tail := pos + 1, sent := q.sent + [m]), Accepted)
  }

  /** One access of `dequeue`: the head is advanced before the slot is read. */
  function DeqAct(q: Ring, d: Deq): (Ring, DeqOut)
    requires |q.buf| > 0
  {
    match d
    case LoadHead => (q, DeqMore(CheckTail(q.head)))
    case CheckTail(seen) => (q, if seen == q.tail then Answer(None) else DeqMore(Claim))
    case Claim => (q.(head := q.head + 1), DeqMore(Read(q.head)))
    case Read(pos) =>
      var x := q.buf[pos % |q.buf|];
      (if x.Some? then q.(got := q.got + [x.value]) else q, Answer(x))
  }

  // ----- The threads -----

  datatype Receiver = RAlloc | RHas(m: nat) | REnq(e: Enq) | RStopped

  datatype Sequencer =
    | SDeq(d: Deq)
    | SHas(m: nat)
    | SForward(e: Enq)
    | SRecover(m: nat)             // in the receive loop of a gap recovery, holding the current message
    | SRecovered(m: nat, r: nat)   // with a buffer for a recovered message
    | SRecEnq(m: nat, e: Enq)
    | SStopped(held: seq<nat>)

  datatype Writer = WDeq(d: Deq) | WFree

  datatype Choice = Drop | Forward | Recover | Good | Bad | Throw

  datatype State = State(
    free: seq<nat>,
    q1: Ring,
    q2: Ring,
    r: Receiver,
    s: Sequencer,
    w: Writer,
    batch: seq<nat>,
    leaked: seq<nat>,   // messages whose ignored enqueue answered false
    batchSize: nat)

  datatype Event = StepReceiver(c: Choice) | StepSequencer(c: Choice) | StepWriter

  function Init(messages: nat, capacity: nat, batchSize: nat): State {
    State(seq(messages, i => i), NewRing(capacity), NewRing(capacity), RAlloc, SDeq(LoadHead), WDeq(LoadHead),
          [], [], batchSize)
  }

  function ReceiverAct(x: State, c: Choice): State
    requires |x.q1.buf| > 0
  {
    match x.r
    case RAlloc => if x.free == [] then x.(r := RStopped) else x.(free := x.free[1..], r := RHas(x.free[0]))
    case RHas(m) => if c == Bad then x.(free := [m] + x.free, r := RAlloc) else x.(r := REnq(LoadTail(m)))
    case REnq(e) =>
      (match EnqAct(x.q1, e)
       case (q, EnqMore(e')) => x.(q1 := q, r := REnq(e'))
       case (q, Accepted) => x.(q1 := q, r := RAlloc)
       case (q, Refused) => x.(q1 := q, r := RAlloc, leaked := x.leaked + [e.m]))
    case RStopped => x
  }

  function SequencerAct(x: State, c: Choice): State
    requires |x.q1.buf| > 0 && |x.q2.buf| > 0
  {
    match x.s
    case SDeq(d) =>
      (match DeqAct(x.q1, d)
       case (q, DeqMore(d')) => x.(q1 := q, s := SDeq(d'))
       case (q, Answer(None)) => x.(q1 := q, s := SDeq(LoadHead))
       case (q, Answer(Some(m))) => x.(q1 := q, s := SHas(m)))
    case SHas(m) =>
      if c == Drop then x.(free := [m] + x.free, s := SDeq(LoadHead))
      else if c == Recover then x.(s := SRecover(m))
      else x.(s := SForward(LoadTail(m)))
    case SForward(e) =>
      (match EnqAct(x.q2, e)
       case (q, EnqMore(e')) => x.(q2 := q, s := SForward(e'))
       case (q, Accepted) => x.(q2 := q, s := SDeq(LoadHead))
       case (q, Refused) => x.(q2 := q, s := SDeq(LoadHead), leaked := x.leaked + [e.m]))
    case SRecover(m) =>
      if c == Forward then x.(s := SForward(LoadTail(m)))      // complete, or broken off
      else if x.free == [] then x.(s := SStopped([m]))
      else x.(free := x.free[1..], s := SRecovered(m, x.free[0]))
    case SRecovered(m, r) =>
      if c == Bad then x.(free := [r] + x.free, s := SRecover(m))
      else if c == Throw then x.(s := SStopped([m, r]))
      else x.(s := SRecEnq(m, LoadTail(r)))
    case SRecEnq(m, e) =>
      (match EnqAct(x.q2, e)
       case (q, EnqMore(e')) => x.(q2 := q, s := SRecEnq(m, e'))
       case (q, Accepted) => x.(q2 := q, s := SRecover(m))
       case (q, Refused) => x.(q2 := q, s := SRecover(m), leaked := x.leaked + [e.m]))
    case SStopped(_) => x
  }

  function WriterAct(x: State): State
    requires |x.q2.buf| > 0
  {
    match x.w
    case WDeq(d) =>
      (match DeqAct(x.q2, d)
       case (q, DeqMore(d')) => x.(q2 := q, w := WDeq(d'))
       case (q, Answer(None)) => x.(q2 := q, w := if x.batch == [] then WDeq(LoadHead) else WFree)
       case (q, Answer(Some(m))) =>
         x.(q2 := q, batch := x.batch + [m], w := if |x.batch| + 1 >= x.batchSize then WFree else WDeq(LoadHead)))
    case WFree =>
      if x.batch == [] then x.(w := WDeq(LoadHead)) else x.(free := [x.batch[0]] + x.free, batch := x.batch[1..])
  }

  function Step(x: State, e: Event): (y: State)
    requires |x.q1.buf| > 0 && |x.q2.buf| > 0
    ensures |y.q1.buf| == |x.q1.buf| && |y.q2.buf| == |x.q2.buf|
  {
    match e
    case StepReceiver(c) => ReceiverAct(x, c)
    case StepSequencer(c) => SequencerAct(x, c)
    case StepWriter => WriterAct(x)
  }

  function Exec(x: State, es: seq<Event>): (y: State)
    requires |x.q1.buf| > 0 && |x.q2.buf| > 0
    ensures |y.q1.buf| == |x.q1.buf| && |y.q2.buf| == |x.q2.buf|
    decreases |es|
  {
    if es == [] then x else Exec(Step(x, es[0]), es[1..])
  }

  // ----- Where the messages are -----

  ghost function InRing(q: Ring): seq<nat> {
    if q.head <= |q.sent| then q.sent[q.head..] else []
  }

  /** The message of a claimed slot that was not read yet. */
  ghost function HeldByDeq(q: Ring, d: Deq): seq<nat> {
    if d.Read? && d.pos < |q.sent| then [q.sent[d.pos]] else []
  }

  ghost function HeldByReceiver(x: State): seq<nat> {
    match x.r
    case RHas(m) => [m]
    case REnq(e) => [e.m]
    case _ => []
  }

  ghost function HeldBySequencer(x: State): seq<nat> {
    match x.s
    case SDeq(d) => HeldByDeq(x.q1, d)
    case SHas(m) => [m]
    case SForward(e) => [e.m]
    case SRecover(m) => [m]
    case SRecovered(m, r) => [m, r]
    case SRecEnq(m, e) => [m, e.m]
    case SStopped(held) => held
  }

  ghost function HeldByWriter(x: State): seq<nat> {
    x.batch + (if x.w.WDeq? then HeldByDeq(x.q2, x.w.d) else [])
  }

  ghost function Occ(a: seq<nat>, m: nat): nat {
    if a == [] then 0 else (if a[0] == m then 1 else 0) + Occ(a[1..], m)
  }

  lemma {:induction false} OccConcat(a: seq<nat>, b: seq<nat>, m: nat)
    ensures Occ(a + b, m) == Occ(a, m) + Occ(b, m)
  {
    if a == [] {
      assert a + b == b;
    } else {
      assert (a + b)[1..] == a[1..] + b;
      OccConcat(a[1..], b, m);
    }
  }

  /** The seven places a message can be in: pool, receiver, first ring, sequencer, second ring, writer, bin. */
  ghost function Places(x: State): (l: seq<seq<nat>>)
    ensures |l| == 7
  {
    [x.free, HeldByReceiver(x), InRing(x.q1), HeldBySequencer(x), InRing(x.q2), HeldByWriter(x), x.leaked]
  }

  ghost function OccWeight(m: nat): seq<nat> -> nat {
    (a: seq<nat>) => Occ(a, m)
  }

  ghost function LenWeight(): seq<nat> -> nat {
    (a: seq<nat>) => |a|
  }

  /** How often message m occurs, over all places. */
  ghost function Total(x: State, m: nat): nat {
    SumBy(Places(x), OccWeight(m))
  }

  ghost function Size(x: State): nat {
    SumBy(Places(x), LenWeight())
  }

  /** Replacing the contents of two places changes a sum over all places by the two differences. */
  lemma TwoUpdates(l: seq<seq<nat>>, i: nat, j: nat, a: seq<nat>, b: seq<nat>, w: seq<nat> -> nat)
    requires i < |l| && j < |l| && i != j && w(a) + w(b) == w(l[i]) + w(l[j])
    ensures SumBy(l[i := a][j := b], w) == SumBy(l, w)
  {
    SumByUpdate(l, i, a, w);
    SumByUpdate(l[i := a], j, b, w);
  }

  /** Moving messages between two places keeps every total. */
  lemma Moved(x: State, y: State, i: nat, j: nat, a: seq<nat>, b: seq<nat>, m: nat)
    requires i < 7 && j < 7 && i != j && Places(y) == Places(x)[i := a][j := b]
    requires Occ(a, m) + Occ(b, m) == Occ(Places(x)[i], m) + Occ(Places(x)[j], m)
    requires |a| + |b| == |Places(x)[i]| + |Places(x)[j]|
    ensures Total(y, m) == Total(x, m) && Size(y) == Size(x)
  {
    TwoUpdates(Places(x), i, j, a, b, OccWeight(m));
    TwoUpdates(Places(x), i, j, a, b, LenWeight());
  }

  /** The first element of one place moves to the front of the other. */
  lemma MovesFront(x: State, y: State, i: nat, j: nat, k: nat, rest: seq<nat>, m: nat)
    requires i < 7 && j < 7 && i != j && Places(x)[i] == [k] + rest
    requires Places(y) == Places(x)[i := rest][j := [k] + Places(x)[j]] || Places(y) == Places(x)[i := rest][j := Places(x)[j] + [k]]
    ensures Total(y, m) == Total(x, m) && Size(y) == Size(x)
  {
    var b := Places(x)[j];
    OccConcat([k], rest, m);
    OccConcat([k], b, m);
    OccConcat(b, [k], m);
    Moved(x, y, i, j, rest, Places(y)[j], m);
  }

  lemma PlacesWithinSize(x: State)
    ensures |HeldByReceiver(x)| + |InRing(x.q1)| + |HeldBySequencer(x)| <= Size(x)
    ensures |HeldBySequencer(x)| + |InRing(x.q2)| + |HeldByWriter(x)| <= Size(x)
  {
    var l := Places(x);
    SumByUpdate(l, 1, [], LenWeight());
    SumByUpdate(l[1 := []], 2, [], LenWeight());
    SumByUpdate(l[1 := []][2 := []], 3, [], LenWeight());
    SumByUpdate(l, 3, [], LenWeight());
    SumByUpdate(l[3 := []], 4, [], LenWeight());
    SumByUpdate(l[3 := []][4 := []], 5, [], LenWeight());
  }

  // ----- The ring invariant -----

  ghost predicate RingOk(q: Ring) {
    && |q.buf| > 0 && |q.sent| == q.tail && q.head <= q.tail <= q.head + |q.buf|
    && (forall p: nat {:trigger q.sent[p]} :: q.head <= p < q.tail ==> q.buf[p % |q.buf|] == Some(q.sent[p]))
  }

  ghost predicate EnqOk(q: Ring, e: Enq)
    requires RingOk(q)
  {
    match e
    case LoadTail(_) => true
    case CheckHead(_, pos) => pos == q.tail
    case Write(_, pos) => pos == q.tail && q.tail < q.head + |q.buf|
    case StoreTail(m, pos) => pos == q.tail && q.tail < q.head + |q.buf| && q.buf[pos % |q.buf|] == Some(m)
  }

  /** A claimed slot still holds what was published there; everything read so far came in order. */
  ghost predicate DeqOk(q: Ring, d: Deq)
    requires RingOk(q)
  {
    match d
    case LoadHead => q.got == q.sent[..q.head]
    case CheckTail(seen) => seen == q.head && q.got == q.sent[..q.head]
    case Claim => q.head < q.tail && q.got == q.sent[..q.head]
    case Read(pos) => pos + 1 == q.head && q.buf[pos % |q.buf|] == Some(q.sent[pos]) && q.got == q.sent[..pos]
  }

  /** What the pool size guarantees: the ring, an unread claim and the message in hand fit together. */
  ghost predicate Room(q: Ring, d: Deq) {
    q.tail - q.head + (if d.Read? then 1 else 0) + 1 <= |q.buf|
  }

  lemma EnqStep(q: Ring, e: Enq, d: Deq)
    requires RingOk(q) && EnqOk(q, e) && DeqOk(q, d) && Room(q, d)
    ensures
      var (q', out) := EnqAct(q, e);
      && RingOk(q') && DeqOk(q', d) && |q'.buf| == |q.buf| && !out.Refused?
      && (out.EnqMore? ==> EnqOk(q', out.e) && out.e.m == e.m && InRing(q') == InRing(q))
      && (out.Accepted? ==> InRing(q') == InRing(q) + [e.m])
      && HeldByDeq(q', d) == HeldByDeq(q, d)
  {
    var (q', out) := EnqAct(q, e);
    var n := |q.buf|;
    if e.Write? {
      forall p: nat | q'.head <= p < q'.tail ensures q'.buf[p % n] == Some(q'.sent[p]) {
        if p % n == e.pos % n { SameCellSamePosition(p, e.pos, n); }
      }
      if d.Read? && d.pos % n == e.pos % n { SameCellSamePosition(d.pos, e.pos, n); }
    } else if e.StoreTail? {
      assert q'.sent[..q.tail] == q.sent;
      assert q'.got == q'.sent[..|q'.got|] by { assert q.got == q.sent[..|q.got|]; }
    }
  }

  lemma DeqStep(q: Ring, d: Deq)
    requires RingOk(q) && DeqOk(q, d)
    ensures
      var (q', out) := DeqAct(q, d);
      && RingOk(q') && |q'.buf| == |q.buf|
      && (out.DeqMore? ==>
            DeqOk(q', out.d) && HeldByDeq(q, d) == [] && HeldByDeq(q', out.d) + InRing(q') == InRing(q))
      && (out.Answer? ==>
            DeqOk(q', LoadHead) && InRing(q') == InRing(q) &&
            HeldByDeq(q, d) == (if out.m.Some? then [out.m.value] else []))
      && q'.tail == q.tail && q'.sent == q.sent
  {
    var (q', out) := DeqAct(q, d);
    if d.Read? {
      assert q.sent[..q.head] == q.sent[..d.pos] + [q.sent[d.pos]];
    } else if d.Claim? {
      assert q.sent[q.head..] == [q.sent[q.head]] + q.sent[q.head + 1..];
    }
  }

  /** Dequeueing never disturbs the producer. */
  lemma DeqKeepsEnq(q: Ring, d: Deq, e: Enq)
    requires RingOk(q) && DeqOk(q, d) && EnqOk(q, e)
    ensures RingOk(DeqAct(q, d).0) && EnqOk(DeqAct(q, d).0, e)
  {
    DeqStep(q, d);
  }

  /**
   On its own the ring is first-in first-out only up to a race: a claimed slot
   survives the producer's next write exactly when that write is not one full
   lap ahead of the claim (or stores the same message again).
   */
  lemma ClaimSurvivesIffNoLap(q: Ring, e: Enq, d: Deq)
    requires RingOk(q) && e.Write? && EnqOk(q, e) && d.Read? && DeqOk(q, d)
    ensures DeqAct(EnqAct(q, e).0, d).1 == Answer(Some(q.sent[d.pos]))
            <==> q.tail != d.pos + |q.buf| || e.m == q.sent[d.pos]
  {
    var n := |q.buf|;
    if d.pos % n == e.pos % n && e.pos < d.pos + n {
      SameCellSamePosition(d.pos, e.pos, n);
    }
    LapReturns(d.pos, n);
  }

  // ----- The pipeline invariant -----

  ghost function Ids(n: nat): seq<nat> {
    seq(n, i => i)
  }

  ghost function Consumer1(x: State): Deq {
    if x.s.SDeq? then x.s.d else LoadHead
  }

  ghost function Consumer2(x: State): Deq {
    if x.w.WDeq? then x.w.d else LoadHead
  }

  ghost predicate RingsOk(x: State) {
    && RingOk(x.q1) && RingOk(x.q2)
    && (x.r.REnq? ==> EnqOk(x.q1, x.r.e)) && DeqOk(x.q1, Consumer1(x))
    && (x.s.SForward? || x.s.SRecEnq? ==> EnqOk(x.q2, x.s.e)) && DeqOk(x.q2, Consumer2(x))
  }

  ghost predicate Inv(x: State, messages: nat) {
    && |x.q1.buf| == |x.q2.buf| && messages <= |x.q1.buf|
    && RingsOk(x)
    && x.leaked == [] && Size(x) == messages
  }

  /** What an enqueue access does to the messages: nothing, or it moves the one in hand into the ring. */
  ghost predicate EnqMoves(q: Ring, e: Enq, d: Deq) {
    |q.buf| > 0 &&
    var (q', out) := EnqAct(q, e);
    && !out.Refused? && HeldByDeq(q', d) == HeldByDeq(q, d)
    && (out.EnqMore? ==> out.e.m == e.m && InRing(q') == InRing(q))
    && (out.Accepted? ==> InRing(q') == InRing(q) + [e.m])
  }

  /** What a dequeue access does to the messages: nothing, or it moves the front of the ring into the hand. */
  ghost predicate DeqMoves(q: Ring, d: Deq) {
    |q.buf| > 0 &&
    var (q', out) := DeqAct(q, d);
    && (out.DeqMore? ==> HeldByDeq(q, d) == [] && HeldByDeq(q', out.d) + InRing(q') == InRing(q))
    && (out.Answer? ==> InRing(q') == InRing(q) && HeldByDeq(q, d) == (if out.m.Some? then [out.m.value] else []))
  }

  lemma ReceiverEnqueues(x: State, c: Choice, m: nat)
    requires |x.q1.buf| > 0 && x.r.REnq? && EnqMoves(x.q1, x.r.e, Consumer1(x))
    ensures Total(ReceiverAct(x, c), m) == Total(x, m) && Size(ReceiverAct(x, c)) == Size(x)
  {
    var y := ReceiverAct(x, c);
    assert HeldBySequencer(y) == HeldBySequencer(x);
    if EnqAct(x.q1, x.r.e).1.Accepted? { MovesFront(x, y, 1, 2, x.r.e.m, [], m); } else { assert Places(y) == Places(x); }
  }

  lemma ReceiverHandles(x: State, c: Choice, m: nat)
    requires |x.q1.buf| > 0 && !x.r.REnq?
    ensures Total(ReceiverAct(x, c), m) == Total(x, m) && Size(ReceiverAct(x, c)) == Size(x)
  {
    var y := ReceiverAct(x, c);
    if x.r.RAlloc? && x.free != [] {
      assert HeldByReceiver(y) == [x.free[0]] + HeldByReceiver(x);
      MovesFront(x, y, 0, 1, x.free[0], x.free[1..], m);
    } else if x.r.RHas? && c == Bad {
      MovesFront(x, y, 1, 0, x.r.m, [], m);
    } else {
      assert Places(y) == Places(x);
    }
  }

  lemma ReceiverTotal(x: State, c: Choice, m: nat)
    requires |x.q1.buf| > 0 && (x.r.REnq? ==> EnqMoves(x.q1, x.r.e, Consumer1(x)))
    ensures Total(ReceiverAct(x, c), m) == Total(x, m) && Size(ReceiverAct(x, c)) == Size(x)
  {
    if x.r.REnq? { ReceiverEnqueues(x, c, m); } else { ReceiverHandles(x, c, m); }
  }

  lemma ReceiverStep(x: State, messages: nat, c: Choice, m: nat)
    requires Inv(x, messages)
    ensures Inv(ReceiverAct(x, c), messages) && Total(ReceiverAct(x, c), m) == Total(x, m)
  {
    if x.r.REnq? {
      PlacesWithinSize(x);
      EnqStep(x.q1, x.r.e, Consumer1(x));
    }
    ReceiverTotal(x, c, m);
  }

  lemma SequencerDequeues(x: State, c: Choice, m: nat)
    requires |x.q1.buf| > 0 && |x.q2.buf| > 0 && x.s.SDeq? && DeqMoves(x.q1, x.s.d)
    ensures Total(SequencerAct(x, c), m) == Total(x, m) && Size(SequencerAct(x, c)) == Size(x)
  {
    var y := SequencerAct(x, c);
    var (q, out) := DeqAct(x.q1, x.s.d);
    assert HeldByWriter(y) == HeldByWriter(x);
    if out.DeqMore? && HeldByDeq(q, out.d) != [] {
      assert HeldBySequencer(y) == HeldByDeq(q, out.d) + HeldBySequencer(x);
      MovesFront(x, y, 2, 3, HeldByDeq(q, out.d)[0], InRing(q), m);
    } else {
      assert Places(y) == Places(x);
    }
  }

  lemma SequencerForwards(x: State, c: Choice, m: nat)
    requires |x.q1.buf| > 0 && |x.q2.buf| > 0 && (x.s.SForward? || x.s.SRecEnq?) && EnqMoves(x.q2, x.s.e, Consumer2(x))
    ensures Total(SequencerAct(x, c), m) == Total(x, m) && Size(SequencerAct(x, c)) == Size(x)
  {
    var y := SequencerAct(x, c);
    var e := x.s.e;
    assert HeldByWriter(y) == HeldByWriter(x);
    if EnqAct(x.q2, e).1.EnqMore? {
      assert Places(y) == Places(x);
    } else {
      OccConcat(InRing(x.q2), [e.m], m);
      OccConcat(HeldBySequencer(y), [e.m], m);
      assert HeldBySequencer(x) == HeldBySequencer(y) + [e.m];
      Moved(x, y, 3, 4, HeldBySequencer(y), InRing(x.q2) + [e.m], m);
    }
  }

  /** The sequencer gives the message in hand, or the buffer of a rejected recovered message, back to the pool. */
  lemma SequencerReturns(x: State, c: Choice, m: nat)
    requires |x.q1.buf| > 0 && |x.q2.buf| > 0 && ((x.s.SHas? && c == Drop) || (x.s.SRecovered? && c == Bad))
    ensures Total(SequencerAct(x, c), m) == Total(x, m) && Size(SequencerAct(x, c)) == Size(x)
  {
    var y := SequencerAct(x, c);
    if x.s.SHas? {
      MovesFront(x, y, 3, 0, x.s.m, [], m);
    } else {
      OccConcat([x.s.r], x.free, m);
      OccConcat([x.s.m], [x.s.r], m);
      assert HeldBySequencer(x) == [x.s.m] + [x.s.r];
      Moved(x, y, 3, 0, [x.s.m], [x.s.r] + x.free, m);
    }
  }

  lemma SequencerHandles(x: State, c: Choice, m: nat)
    requires |x.q1.buf| > 0 && |x.q2.buf| > 0 && !x.s.SDeq? && !x.s.SForward? && !x.s.SRecEnq?
    ensures Total(SequencerAct(x, c), m) == Total(x, m) && Size(SequencerAct(x, c)) == Size(x)
  {
    var y := SequencerAct(x, c);
    if (x.s.SHas? && c == Drop) || (x.s.SRecovered? && c == Bad) {
      SequencerReturns(x, c, m);
    } else if x.s.SRecover? && c != Forward && x.free != [] {
      SequencerAllocates(x, c, m);
    } else {
      assert Places(y) == Places(x);
    }
  }

  lemma SequencerAllocates(x: State, c: Choice, m: nat)
    requires |x.q1.buf| > 0 && |x.q2.buf| > 0 && x.s.SRecover? && c != Forward && x.free != []
    ensures Total(SequencerAct(x, c), m) == Total(x, m) && Size(SequencerAct(x, c)) == Size(x)
  {
    var y := SequencerAct(x, c);
    assert HeldBySequencer(y) == HeldBySequencer(x) + [x.free[0]];
    MovesFront(x, y, 0, 3, x.free[0], x.free[1..], m);
  }

  lemma SequencerReads(x: State, c: Choice)
    requires RingsOk(x) && x.s.SDeq?
    ensures RingsOk(SequencerAct(x, c)) && SequencerAct(x, c).leaked == x.leaked && DeqMoves(x.q1, x.s.d)
  {
    DeqStep(x.q1, x.s.d);
    if x.r.REnq? { DeqKeepsEnq(x.q1, x.s.d, x.r.e); }
  }

  lemma SequencerWrites(x: State, c: Choice)
    requires RingsOk(x) && (x.s.SForward? || x.s.SRecEnq?) && Room(x.q2, Consumer2(x))
    ensures RingsOk(SequencerAct(x, c)) && SequencerAct(x, c).leaked == x.leaked && EnqMoves(x.q2, x.s.e, Consumer2(x))
  {
    EnqStep(x.q2, x.s.e, Consumer2(x));
  }

  lemma SequencerMoves(x: State, c: Choice)
    requires RingsOk(x) && !x.s.SDeq? && !x.s.SForward? && !x.s.SRecEnq?
    ensures RingsOk(SequencerAct(x, c)) && SequencerAct(x, c).leaked == x.leaked
    ensures SequencerAct(x, c).q1 == x.q1 && SequencerAct(x, c).q2 == x.q2
  {
    var y := SequencerAct(x, c);
    assert Consumer1(y) == Consumer1(x) == LoadHead && Consumer2(y) == Consumer2(x) && y.r == x.r;
    assert y.s.SForward? || y.s.SRecEnq? ==> y.s.e.LoadTail?;
  }

  lemma SequencerReadStep(x: State, messages: nat, c: Choice, m: nat)
    requires Inv(x, messages) && x.s.SDeq?
    ensures Inv(SequencerAct(x, c), messages) && Total(SequencerAct(x, c), m) == Total(x, m)
  {
    SequencerReads(x, c);
    SequencerDequeues(x, c, m);
  }

  lemma SequencerWriteStep(x: State, messages: nat, c: Choice, m: nat)
    requires Inv(x, messages) && (x.s.SForward? || x.s.SRecEnq?)
    ensures Inv(SequencerAct(x, c), messages) && Total(SequencerAct(x, c), m) == Total(x, m)
  {
    PlacesWithinSize(x);
    SequencerWrites(x, c);
    SequencerForwards(x, c, m);
  }

  lemma SequencerStep(x: State, messages: nat, c: Choice, m: nat)
    requires Inv(x, messages)
    ensures Inv(SequencerAct(x, c), messages) && Total(SequencerAct(x, c), m) == Total(x, m)
  {
    if x.s.SDeq? {
      SequencerReadStep(x, messages, c, m);
    } else if x.s.SForward? || x.s.SRecEnq? {
      SequencerWriteStep(x, messages, c, m);
    } else {
      SequencerMoves(x, c);
      SequencerHandles(x, c, m);
    }
  }

  lemma WriterDequeues(x: State, m: nat)
    requires |x.q2.buf| > 0 && x.w.WDeq? && DeqMoves(x.q2, x.w.d)
    ensures Total(WriterAct(x), m) == Total(x, m) && Size(WriterAct(x)) == Size(x)
  {
    var y := WriterAct(x);
    var (q, out) := DeqAct(x.q2, x.w.d);
    if out.DeqMore? && HeldByDeq(q, out.d) != [] {
      assert HeldByWriter(x) == x.batch && HeldByWriter(y) == x.batch + HeldByDeq(q, out.d);
      MovesFront(x, y, 4, 5, HeldByDeq(q, out.d)[0], InRing(q), m);
    } else {
      assert HeldByWriter(y) == HeldByWriter(x);
      assert Places(y) == Places(x);
    }
  }

  lemma WriterFrees(x: State, m: nat)
    requires |x.q2.buf| > 0 && x.w.WFree?
    ensures Total(WriterAct(x), m) == Total(x, m) && Size(WriterAct(x)) == Size(x)
  {
    var y := WriterAct(x);
    assert HeldByWriter(x) == x.batch && HeldByWriter(y) == y.batch;
    if x.batch != [] { MovesFront(x, y, 5, 0, x.batch[0], x.batch[1..], m); } else { assert Places(y) == Places(x); }
  }

  lemma WriterRings(x: State)
    requires RingsOk(x)
    ensures RingsOk(WriterAct(x)) && (x.w.WDeq? ==> DeqMoves(x.q2, x.w.d))
  {
    if x.w.WDeq? {
      DeqStep(x.q2, x.w.d);
      if x.s.SForward? || x.s.SRecEnq? { DeqKeepsEnq(x.q2, x.w.d, x.s.e); }
    }
  }

  lemma WriterStep(x: State, messages: nat, m: nat)
    requires Inv(x, messages)
    ensures Inv(WriterAct(x), messages) && Total(WriterAct(x), m) == Total(x, m)
  {
    WriterRings(x);
    if x.w.WDeq? { WriterDequeues(x, m); } else { WriterFrees(x, m); }
  }

  lemma StepKeepsInv(x: State, messages: nat, e: Event, m: nat)
    requires Inv(x, messages)
    ensures Inv(Step(x, e), messages) && Total(Step(x, e), m) == Total(x, m)
  {
    match e
    case StepReceiver(c) => ReceiverStep(x, messages, c, m);
    case StepSequencer(c) => SequencerStep(x, messages, c, m);
    case StepWriter => WriterStep(x, messages, m);
  }

  lemma {:induction false} ExecKeepsInv(x: State, messages: nat, es: seq<Event>, m: nat)
    requires Inv(x, messages)
    ensures Inv(Exec(x, es), messages) && Total(Exec(x, es), m) == Total(x, m)
    decreases |es|
  {
    if es != [] {
      StepKeepsInv(x, messages, es[0], m);
      ExecKeepsInv(Step(x, es[0]), messages, es[1..], m);
    }
  }

  lemma {:induction false} EachIdOnce(n: nat, m: nat)
    ensures Occ(Ids(n), m) == if m < n then 1 else 0
  {
    if n > 0 {
      EachIdOnce(n - 1, m);
      assert Ids(n) == Ids(n - 1) + [n - 1];
      OccConcat(Ids(n - 1), [n - 1], m);
    }
  }

  // ----- Main results -----

  /** Every message of the pool is in exactly one place, and none of the places is the bin. */
  ghost predicate NothingLost(x: State, messages: nat) {
    x.leaked == [] && forall m: nat :: Total(x, m) == if m < messages then 1 else 0
  }

  /** The values read from a ring so far are the values published, in order; at most the last claim is still unread. */
  ghost predicate Fifo(q: Ring) {
    && q.got <= q.sent && q.head <= |q.sent|
    && (|q.got| == q.head || |q.got| + 1 == q.head)
  }

  /**
   When the pool is no larger than a ring: in every run every message is in
   exactly one place, no ignored enqueue ever answers false, no claimed slot is
   overwritten before it is read, and both rings are first-in first-out.
   */
  lemma PipelineSafety(messages: nat, capacity: nat, batchSize: nat, es: seq<Event>)
    requires 0 < capacity && messages <= capacity
    ensures
      var x := Exec(Init(messages, capacity, batchSize), es);
      NothingLost(x, messages) && Fifo(x.q1) && Fifo(x.q2)
  {
    var x0 := Init(messages, capacity, batchSize);
    var x := Exec(x0, es);
    InitTotals(messages, capacity, batchSize, 0);
    ExecKeepsInv(x0, messages, es, 0);
    forall m: nat ensures Total(x, m) == if m < messages then 1 else 0 {
      InitTotals(messages, capacity, batchSize, m);
      ExecKeepsInv(x0, messages, es, m);
    }
  }

  lemma InitTotals(messages: nat, capacity: nat, batchSize: nat, m: nat)
    ensures
      var x := Init(messages, capacity, batchSize);
      Size(x) == messages && Total(x, m) == if m < messages then 1 else 0
  {
    var x := Init(messages, capacity, batchSize);
    EachIdOnce(messages, m);
    assert x.free == Ids(messages) && Places(x) == [x.free, [], [], [], [], [], []];
    SumByUpdate(Places(x), 0, [], OccWeight(m));
    SumByUpdate(Places(x), 0, [], LenWeight());
    SumByZero(Places(x)[0 := []], OccWeight(m));
    SumByZero(Places(x)[0 := []], LenWeight());
  }

  // ----- The exact bound on the pool -----

  lemma {:induction false} ExecAppend(x: State, a: seq<Event>, b: seq<Event>)
    requires |x.q1.buf| > 0 && |x.q2.buf| > 0
    ensures Exec(x, a + b) == Exec(Exec(x, a), b)
    decreases |a|
  {
    if a == [] {
      assert a + b == b;
    } else {
      assert (a + b)[0] == a[0] && (a + b)[1..] == a[1..] + b;
      ExecAppend(Step(x, a[0]), a[1..], b);
    }
  }

  lemma ExecOne(x: State, e: Event)
    requires |x.q1.buf| > 0 && |x.q2.buf| > 0
    ensures Exec(x, [e]) == Step(x, e)
  {
    assert [e][1..] == [];
    assert Exec(Step(x, e), []) == Step(x, e);
  }

  lemma ExecOn(x: State, a: seq<Event>, y: State, e: Event) returns (es: seq<Event>)
    requires |x.q1.buf| > 0 && |x.q2.buf| > 0 && Exec(x, a) == y
    ensures Exec(x, es) == Step(y, e)
  {
    ExecOne(y, e);
    ExecAppend(x, a, [e]);
    es := a + [e];
  }

  /** The receiver has fetched the first free message and stands before the tail check. */
  function Fetched(x: State): State
    requires x.free != []
  {
    x.(free := x.free[1..], r := REnq(CheckHead(x.free[0], x.q1.tail)))
  }

  lemma ReceiverFetches(x: State) returns (es: seq<Event>)
    requires |x.q1.buf| > 0 && |x.q2.buf| > 0 && x.r == RAlloc && x.free != []
    ensures Exec(x, es) == Fetched(x)
  {
    var go := StepReceiver(Good);
    var x1 := x.(free := x.free[1..], r := RHas(x.free[0]));
    var x2 := x1.(r := REnq(LoadTail(x.free[0])));
    assert Step(x, go) == x1 && Step(x1, go) == x2 && Step(x2, go) == Fetched(x);
    ExecOne(x, go);
    es := ExecOn(x, [go], x1, go);
    es := ExecOn(x, es, x2, go);
  }

  /** The first free message has gone through the receiver into the first ring. */
  function Received(x: State): State
    requires |x.q1.buf| > 0 && x.free != []
  {
    x.(free := x.free[1..], r := RAlloc,
       q1 := x.q1.(buf := x.q1.buf[x.q1.tail % |x.q1.buf| := Some(x.free[0])], tail := x.q1.tail + 1, sent := x.q1.sent + [x.free[0]]))
  }

  lemma ReceiverRuns(x: State) returns (es: seq<Event>)
    requires |x.q1.buf| > 0 && |x.q2.buf| > 0 && x.r == RAlloc && x.free != []
    requires x.q1.tail + 1 - x.q1.head <= |x.q1.buf|
    ensures Exec(x, es) == Received(x)
  {
    var go := StepReceiver(Good);
    var m, pos := x.free[0], x.q1.tail;
    es := ReceiverFetches(x);
    var x4 := Fetched(x).(r := REnq(Write(m, pos)));
    var x5 := x4.(q1 := x.q1.(buf := x.q1.buf[pos % |x.q1.buf| := Some(m)]), r := REnq(StoreTail(m, pos)));
    assert Step(Fetched(x), go) == x4 && Step(x4, go) == x5 && Step(x5, go) == Received(x);
    es := ExecOn(x, es, Fetched(x), go);
    es := ExecOn(x, es, x4, go);
    es := ExecOn(x, es, x5, go);
  }

  /** The first k messages are in the first ring and nobody has dequeued. */
  ghost predicate Filled(x: State, messages: nat, capacity: nat, k: nat) {
    && |x.q1.buf| == |x.q2.buf| == capacity && x.r == RAlloc && x.s == SDeq(LoadHead) && x.leaked == []
    && x.q2 == NewRing(capacity) && x.w == WDeq(LoadHead) && x.batch == []
    && x.q1.head == 0 && x.q1.tail == k && x.q1.sent == Ids(k) && x.q1.got == []
    && |x.free| == messages - k && forall i: nat :: i < |x.free| ==> x.free[i] == k + i
  }

  /** The receiver can fill the first ring before anyone dequeues. */
  lemma {:induction false} FillRing(messages: nat, capacity: nat, batchSize: nat, k: nat) returns (es: seq<Event>)
    requires 0 < capacity && k <= capacity && k <= messages
    ensures Filled(Exec(Init(messages, capacity, batchSize), es), messages, capacity, k)
  {
    var x0 := Init(messages, capacity, batchSize);
    if k == 0 {
      es := [];
    } else {
      var a := FillRing(messages, capacity, batchSize, k - 1);
      var x := Exec(x0, a);
      var b := ReceiverRuns(x);
      ExecAppend(x0, a, b);
      es := a + b;
      assert Ids(k) == Ids(k - 1) + [k - 1];
    }
  }

  /** One message more than a ring holds and some run loses a message to a refused enqueue. */
  lemma LargerPoolLeaks(messages: nat, capacity: nat, batchSize: nat) returns (es: seq<Event>)
    requires 0 < capacity < messages
    ensures |Exec(Init(messages, capacity, batchSize), es).leaked| == 1
  {
    var x0 := Init(messages, capacity, batchSize);
    var a := FillRing(messages, capacity, batchSize, capacity);
    var x := Exec(x0, a);
    var b := ReceiverFetches(x);
    ExecAppend(x0, a, b);
    es := ExecOn(x0, a + b, Fetched(x), StepReceiver(Good));
  }

  /** The sequencer claims the first slot of a full ring and stops before reading it. */
  lemma SequencerClaims(x: State) returns (es: seq<Event>)
    requires |x.q1.buf| > 0 && |x.q2.buf| > 0 && x.s == SDeq(LoadHead) && x.q1.head != x.q1.tail
    ensures Exec(x, es) == x.(q1 := x.q1.(head := x.q1.head + 1), s := SDeq(Read(x.q1.head)))
  {
    var go := StepSequencer(Good);
    var x1 := x.(s := SDeq(CheckTail(x.q1.head)));
    var x2 := x.(s := SDeq(Claim));
    assert Step(x, go) == x1 && Step(x1, go) == x2;
    ExecOne(x, go);
    es := ExecOn(x, [go], x1, go);
    es := ExecOn(x, es, x2, go);
  }

  /**
   One message more than a ring holds and some run overwrites a claimed slot:
   the sequencer reads the newest message instead of the oldest, no enqueue was
   refused, and the oldest is nowhere any more.
   */
  lemma LargerPoolOverwrites(messages: nat, capacity: nat, batchSize: nat) returns (es: seq<Event>)
    requires 0 < capacity < messages
    ensures
      var x := Exec(Init(messages, capacity, batchSize), es);
      && x.leaked == [] && x.q1.got == [capacity] && |x.q1.sent| > 0 && x.q1.sent[0] == 0
      && !Fifo(x.q1) && Total(x, 0) == 0
  {
    var x0 := Init(messages, capacity, batchSize);
    var a := FillRing(messages, capacity, batchSize, capacity);
    var x := Exec(x0, a);
    var b := SequencerClaims(x);
    ExecAppend(x0, a, b);
    var x1 := x.(q1 := x.q1.(head := 1), s := SDeq(Read(0)));
    var c := ReceiverRuns(x1);
    ExecAppend(x0, a + b, c);
    es := ExecOn(x0, a + b + c, Received(x1), StepSequencer(Good));
    Overwritten(x, messages, capacity);
  }

  lemma Overwritten(x: State, messages: nat, capacity: nat)
    requires 0 < capacity < messages && Filled(x, messages, capacity, capacity)
    ensures
      var y := SequencerAct(Received(x.(q1 := x.q1.(head := 1), s := SDeq(Read(0)))), Good);
      && y.leaked == [] && y.q1.got == [capacity] && |y.q1.sent| > 0 && y.q1.sent[0] == 0 && !Fifo(y.q1) && Total(y, 0) == 0
  {
    var x2 := Received(x.(q1 := x.q1.(head := 1), s := SDeq(Read(0))));
    assert capacity % capacity == 0 && x2.q1.buf[0] == Some(capacity);
    assert x2.q1.sent[0] == 0;
    Nowhere(SequencerAct(x2, Good), capacity);
  }

  /** After the overwriting read, message 0 is in none of the places. */
  lemma Nowhere(x: State, capacity: nat)
    requires capacity > 0 && x.r == RAlloc && x.s == SHas(capacity) && x.w == WDeq(LoadHead) && x.batch == [] && x.leaked == []
    requires x.q2 == NewRing(capacity) && x.q1.head == 1 && x.q1.sent == Ids(capacity) + [capacity]
    requires forall i: nat :: i < |x.free| ==> x.free[i] > 0
    ensures Total(x, 0) == 0
  {
    forall i | 0 <= i < 7 ensures OccWeight(0)(Places(x)[i]) == 0 {
      assert InRing(x.q1) == x.q1.sent[1..];
      OccAbsent(Places(x)[i], 0);
    }
    SumByZero(Places(x), OccWeight(0));
  }

  lemma {:induction false} OccAbsent(a: seq<nat>, m: nat)
    requires m !in a
    ensures Occ(a, m) == 0
  {
    if a != [] { OccAbsent(a[1..], m); }
  }

  /** In every run every message is in exactly one place, exactly when the pool fits into a ring. */
  lemma SafeIffPoolFits(messages: nat, capacity: nat, batchSize: nat)
    requires 0 < capacity
    ensures (forall es :: NothingLost(Exec(Init(messages, capacity, batchSize), es), messages)) <==> messages <= capacity
    ensures (forall es :: Exec(Init(messages, capacity, batchSize), es).leaked == []) <==> messages <= capacity
  {
    if messages <= capacity {
      forall es ensures NothingLost(Exec(Init(messages, capacity, batchSize), es), messages) {
        PipelineSafety(messages, capacity, batchSize, es);
      }
    } else {
      var es := LargerPoolLeaks(messages, capacity, batchSize);
      assert Exec(Init(messages, capacity, batchSize), es).leaked != [];
      assert !NothingLost(Exec(Init(messages, capacity, batchSize), es), messages);
    }
  }

  /** In every run the first ring is first-in first-out, exactly when the pool fits into a ring. */
  lemma FifoIffPoolFits(messages: nat, capacity: nat, batchSize: nat)
    requires 0 < capacity
    ensures (forall es :: Fifo(Exec(Init(messages, capacity, batchSize), es).q1)) <==> messages <= capacity
  {
    if messages <= capacity {
      forall es ensures Fifo(Exec(Init(messages, capacity, batchSize), es).q1) {
        PipelineSafety(messages, capacity, batchSize, es);
      }
    } else {
      var es := LargerPoolOverwrites(messages, capacity, batchSize);
      assert !Fifo(Exec(Init(messages, capacity, batchSize), es).q1);
    }
  }

  // ----- Undisturbed stretches: where each thread takes a message -----

  /** A ring after an undisturbed enqueue, and after an undisturbed dequeue. */
  function Sent(q: Ring, m: nat): Ring
    requires |q.buf| > 0
  {
    q.(buf := q.buf[q.tail % |q.buf| := Some(m)], tail := q.tail + 1, sent := q.sent + [m])
  }

  function Got(q: Ring): Ring
    requires q.head < |q.sent|
  {
    q.(head := q.head + 1, got := q.got + [q.sent[q.head]])
  }

  /** The receiver gives a message back when nothing was received. */
  lemma ReceiverReturns(x: State)
    requires |x.q1.buf| > 0 && x.r.RHas?
    ensures ReceiverAct(x, Bad) == x.(free := [x.r.m] + x.free, r := RAlloc)
  {
  }

  /** The sequencer takes the oldest message of the first ring. */
  lemma SequencerTakes(x: State) returns (es: seq<Event>)
    requires RingOk(x.q1) && |x.q2.buf| > 0 && x.s == SDeq(LoadHead) && DeqOk(x.q1, LoadHead) && x.q1.head < x.q1.tail
    ensures Exec(x, es) == x.(q1 := Got(x.q1), s := SHas(x.q1.sent[x.q1.head]))
  {
    es := SequencerClaims(x);
    var x3 := x.(q1 := x.q1.(head := x.q1.head + 1), s := SDeq(Read(x.q1.head)));
    assert x.q1.buf[x.q1.head % |x.q1.buf|] == Some(x.q1.sent[x.q1.head]);
    es := ExecOn(x, es, x3, StepSequencer(Good));
  }

  /** An old message goes back to the pool. */
  lemma SequencerDrops(x: State)
    requires |x.q1.buf| > 0 && |x.q2.buf| > 0 && x.s.SHas?
    ensures SequencerAct(x, Drop) == x.(free := [x.s.m] + x.free, s := SDeq(LoadHead))
  {
  }

  /** Empty polls: the sequencer tries again, and the writer releases the batch it has, or tries again if it has none. */
  lemma EmptyPolls(x: State, c: Choice)
    requires |x.q1.buf| > 0 && |x.q2.buf| > 0
    ensures x.s == SDeq(CheckTail(x.q1.tail)) ==> SequencerAct(x, c) == x.(s := SDeq(LoadHead))
    ensures x.w == WDeq(CheckTail(x.q2.tail)) ==> WriterAct(x) == x.(w := if x.batch == [] then WDeq(LoadHead) else WFree)
  {
  }

  /** A thread that finds the pool empty stops, with what it holds. */
  lemma EmptyPoolStops(x: State, c: Choice)
    requires |x.q1.buf| > 0 && |x.q2.buf| > 0 && x.free == []
    ensures x.r == RAlloc ==> ReceiverAct(x, c) == x.(r := RStopped)
    ensures x.s.SRecover? && c != Forward ==> SequencerAct(x, c) == x.(s := SStopped([x.s.m]))
  {
  }

  /** An enqueue of the sequencer, from its tail load on. */
  lemma SequencerEnqueues(x: State) returns (es: seq<Event>)
    requires |x.q1.buf| > 0 && |x.q2.buf| > 0 && (x.s.SForward? || x.s.SRecEnq?) && x.s.e.LoadTail?
    requires x.q2.tail + 1 - x.q2.head <= |x.q2.buf|
    ensures Exec(x, es) == x.(q2 := Sent(x.q2, x.s.e.m), s := if x.s.SForward? then SDeq(LoadHead) else SRecover(x.s.m))
  {
    var go, m, pos := StepSequencer(Good), x.s.e.m, x.q2.tail;
    var x1 := x.(s := x.s.(e := CheckHead(m, pos)));
    var x2 := x.(s := x.s.(e := Write(m, pos)));
    var x3 := x.(q2 := x.q2.(buf := x.q2.buf[pos % |x.q2.buf| := Some(m)]), s := x.s.(e := StoreTail(m, pos)));
    assert Step(x, go) == x1 && Step(x1, go) == x2 && Step(x2, go) == x3;
    ExecOne(x, go);
    es := ExecOn(x, [go], x1, go);
    es := ExecOn(x, es, x2, go);
    es := ExecOn(x, es, x3, go);
  }

  /** An expected message, or one whose recovery is over, is forwarded. */
  lemma SequencerPasses(x: State) returns (es: seq<Event>)
    requires |x.q1.buf| > 0 && |x.q2.buf| > 0 && (x.s.SHas? || x.s.SRecover?) && x.q2.tail + 1 - x.q2.head <= |x.q2.buf|
    ensures Exec(x, es) == x.(q2 := Sent(x.q2, x.s.m), s := SDeq(LoadHead))
  {
    var x1 := x.(s := SForward(LoadTail(x.s.m)));
    assert Step(x, StepSequencer(Forward)) == x1;
    ExecOne(x, StepSequencer(Forward));
    var b := SequencerEnqueues(x1);
    ExecAppend(x, [StepSequencer(Forward)], b);
    es := [StepSequencer(Forward)] + b;
  }

  /** A recovery forwards a message of its own before the one in hand. */
  lemma SequencerRecovers(x: State) returns (es: seq<Event>)
    requires |x.q1.buf| > 0 && |x.q2.buf| > 0 && (x.s.SHas? || x.s.SRecover?) && x.free != [] && x.q2.tail + 1 - x.q2.head <= |x.q2.buf|
    ensures Exec(x, es) == x.(free := x.free[1..], q2 := Sent(x.q2, x.free[0]), s := SRecover(x.s.m))
  {
    var m, r := x.s.m, x.free[0];
    var x0 := x.(s := SRecover(m));
    var x1 := x.(free := x.free[1..], s := SRecovered(m, r));
    var x2 := x1.(s := SRecEnq(m, LoadTail(r)));
    assert Step(x0, StepSequencer(Good)) == x1 && Step(x1, StepSequencer(Good)) == x2;
    if x.s.SHas? {
      assert Step(x, StepSequencer(Recover)) == x0;
      ExecOne(x, StepSequencer(Recover));
      es := ExecOn(x, [StepSequencer(Recover)], x0, StepSequencer(Good));
    } else {
      ExecOne(x, StepSequencer(Good));
      es := [StepSequencer(Good)];
    }
    es := ExecOn(x, es, x1, StepSequencer(Good));
    var b := SequencerEnqueues(x2);
    ExecAppend(x, es, b);
    es := es + b;
  }

  /** The writer adds the oldest message of the second ring to its batch, and turns to releasing when the batch is full. */
  lemma WriterTakes(x: State) returns (es: seq<Event>)
    requires |x.q1.buf| > 0 && RingOk(x.q2) && x.w == WDeq(LoadHead) && DeqOk(x.q2, LoadHead) && x.q2.head < x.q2.tail
    ensures Exec(x, es) ==
      x.(q2 := Got(x.q2), batch := x.batch + [x.q2.sent[x.q2.head]],
         w := if |x.batch| + 1 >= x.batchSize then WFree else WDeq(LoadHead))
  {
    var h := x.q2.head;
    var x1 := x.(w := WDeq(CheckTail(h)));
    var x2 := x.(w := WDeq(Claim));
    var x3 := x.(q2 := x.q2.(head := h + 1), w := WDeq(Read(h)));
    assert Step(x, StepWriter) == x1 && Step(x1, StepWriter) == x2 && Step(x2, StepWriter) == x3;
    assert x.q2.buf[h % |x.q2.buf|] == Some(x.q2.sent[h]);
    ExecOne(x, StepWriter);
    es := ExecOn(x, [StepWriter], x1, StepWriter);
    es := ExecOn(x, es, x2, StepWriter);
    es := ExecOn(x, es, x3, StepWriter);
  }

  /** The writer gives its whole batch back to the pool. */
  lemma {:induction false} WriterReleases(x: State) returns (es: seq<Event>)
    requires |x.q1.buf| > 0 && |x.q2.buf| > 0 && x.w == WFree
    ensures var y := Exec(x, es); y.w == WDeq(LoadHead) && y.batch == [] && |y.free| == |x.free| + |x.batch| && y.q2 == x.q2
    ensures forall m :: m in x.batch || m in x.free ==> m in Exec(x, es).free
    decreases |x.batch|
  {
    if x.batch == [] {
      ExecOne(x, StepWriter);
      es := [StepWriter];
    } else {
      var x1 := x.(free := [x.batch[0]] + x.free, batch := x.batch[1..]);
      assert Step(x, StepWriter) == x1;
      ExecOne(x, StepWriter);
      var b := WriterReleases(x1);
      ExecAppend(x, [StepWriter], b);
      es := [StepWriter] + b;
      assert forall m :: m in x.batch ==> m == x.batch[0] || m in x.batch[1..];
    }
  }

  /** A message put into an empty ring is the next to be read. */
  lemma SentOk(q: Ring, m: nat)
    requires RingOk(q) && q.head == q.tail && DeqOk(q, LoadHead)
    ensures RingOk(Sent(q, m)) && DeqOk(Sent(q, m), LoadHead) && Sent(q, m).sent[q.head] == m
  {
    assert Sent(q, m).sent[..q.head] == q.sent[..q.head];
  }

  /** With empty rings a message travels from the pool through receiver, ring, sequencer and ring into the writer's batch. */
  lemma Passage(x: State) returns (es: seq<Event>)
    requires RingsOk(x) && x.r == RAlloc && x.s == SDeq(LoadHead) && x.w == WDeq(LoadHead) && x.free != []
    requires x.q1.head == x.q1.tail && x.q2.head == x.q2.tail
    ensures
      var y, m := Exec(x, es), x.free[0];
      && y.free == x.free[1..] && y.q1.got == x.q1.got + [m] && y.q2.got == x.q2.got + [m] && y.batch == x.batch + [m]
      && y.q1.head == y.q1.tail && y.q2.head == y.q2.tail
  {
    var m := x.free[0];
    var a := ReceiverRuns(x);
    var x1 := Received(x);
    SentOk(x.q1, m);
    SentOk(x.q2, m);
    assert x1.q1 == Sent(x.q1, m);
    var b := SequencerTakes(x1);
    var x2 := x1.(q1 := Got(x1.q1), s := SHas(m));
    ExecAppend(x, a, b);
    var c := SequencerPasses(x2);
    var x3 := x2.(q2 := Sent(x2.q2, m), s := SDeq(LoadHead));
    ExecAppend(x, a + b, c);
    var d := WriterTakes(x3);
    ExecAppend(x, a + b + c, d);
    es := a + b + c + d;
  }
}
