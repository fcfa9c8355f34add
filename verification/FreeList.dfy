/**
 The reference-counted free list of moodycamel/concurrentqueue.h as a step
 system: one atomic access per step, any number of threads, every interleaving,
 sequentially consistent memory, reference counts below the flag bit.
 */
module FreeList {
  import opened Basics

  /** The 31-bit reference count and the SHOULD_BE_ON_FREELIST bit of `freeListRefs`. */
  datatype Refs = Refs(count: int, flag: bool)

  /** Where `add_knowing_refcount_is_zero` returns to: the end of `add`, or the loop of `try_get`. */
  datatype Back = AfterAdd | AfterGet(head: Option<nat>)

  datatype Pc =
    | Idle
    | AddFlag(n: nat)
    | AddLoadHead(n: nat, back: Back)
    | AddStoreNext(n: nat, h: Option<nat>, back: Back)
    | AddStoreRefs(n: nat, h: Option<nat>, back: Back)
    | AddCasHead(n: nat, h: Option<nat>, back: Back)
    | AddGiveUp(n: nat, h: Option<nat>, back: Back)
    | AddDone
    | GetLoadHead
    | GetLoadRefs(n: nat)
    | GetCasRefs(n: nat, r: Refs)
    | GetLoadNext(n: nat)
    | GetCasHead(n: nat, next: Option<nat>)
    | GetDropTwo(n: nat)
    | GetDropOne(n: nat, h: Option<nat>)
    | GetDone(result: Option<nat>)

  /** History: who is responsible for a node. */
  datatype Place =
    | Outside              // held by a client of the list
    | Returning(t: nat)    // t called add and has not set the flag yet
    | Waiting              // flagged; the thread that drops the last reference will add it
    | Adding(t: nat)       // flagged with no references; t is the one adder
    | Publishing(t: nat)   // t gave it the list's reference and tries to link it
    | OnList
    | Taken(t: nat)        // t unlinked it and still has to drop two references

  datatype State = State(
    head: Option<nat>,
    next: seq<Option<nat>>,
    refs: seq<Refs>,
    pcs: seq<Pc>,
    place: seq<Place>,   // history
    list: seq<nat>)      // history: the nodes linked from head, in order

  datatype Event = CallAdd(t: nat, n: nat) | CallTryGet(t: nat) | Go(t: nat)

  function Init(nodes: nat, threads: nat): State {
    State(None, seq(nodes, _ => None), seq(nodes, _ => Refs(0, false)),
          seq(threads, _ => Idle), seq(nodes, _ => Outside), [])
  }

  predicate Ready(pc: Pc) {
    pc.Idle? || pc.AddDone? || pc.GetDone?
  }

  /** The loop condition of `try_get`. */
  function Loop(head: Option<nat>): Pc {
    if head.None? then GetDone(None) else GetLoadRefs(head.value)
  }

  function Return(back: Back): Pc {
    match back
    case AfterAdd => AddDone
    case AfterGet(h) => Loop(h)
  }

  predicate NodeIn(h: Option<nat>, k: nat) {
    h.Some? ==> h.value < k
  }

  /** The nodes a program point mentions are nodes of the pool. */
  predicate PcIn(pc: Pc, k: nat) {
    match pc
    case Idle | AddDone | GetLoadHead | GetDone(_) => true
    case AddFlag(n) => n < k
    case AddLoadHead(n, back) => n < k && BackIn(back, k)
    case AddStoreNext(n, h, back) => n < k && NodeIn(h, k) && BackIn(back, k)
    case AddStoreRefs(n, h, back) => n < k && NodeIn(h, k) && BackIn(back, k)
    case AddCasHead(n, h, back) => n < k && NodeIn(h, k) && BackIn(back, k)
    case AddGiveUp(n, h, back) => n < k && NodeIn(h, k) && BackIn(back, k)
    case GetLoadRefs(n) => n < k
    case GetCasRefs(n, _) => n < k
    case GetLoadNext(n) => n < k
    case GetCasHead(n, h) => n < k && NodeIn(h, k)
    case GetDropTwo(n) => n < k
    case GetDropOne(n, h) => n < k && NodeIn(h, k)
  }

  predicate BackIn(back: Back, k: nat) {
    back.AfterGet? ==> NodeIn(back.head, k)
  }

  predicate WellFormed(s: State) {
    && |s.next| == |s.refs| == |s.place|
    && NodeIn(s.head, |s.refs|)
    && (forall n: nat {:trigger NodeIn(s.next[n], |s.refs|)} :: n < |s.next| ==> NodeIn(s.next[n], |s.refs|))
    && (forall t: nat {:trigger PcIn(s.pcs[t], |s.refs|)} :: t < |s.pcs| ==> PcIn(s.pcs[t], |s.refs|))
  }

  function SetPc(s: State, t: nat, pc: Pc): State
    requires t < |s.pcs|
  {
    s.(pcs := s.pcs[t := pc])
  }

  function SetNode(s: State, n: nat, r: Refs, p: Place): State
    requires n < |s.refs| && n < |s.place|
  {
    s.(refs := s.refs[n := r], place := s.place[n := p])
  }

  /** One atomic action of `add` or `try_get` by thread t. */
  function Act(s: State, t: nat): State
    requires WellFormed(s) && t < |s.pcs|
  {
    assert PcIn(s.pcs[t], |s.refs|);
    match s.pcs[t]
    case AddFlag(n) =>
      var was := s.refs[n];
      if was == Refs(0, false) then
        SetPc(SetNode(s, n, was.(flag := true), Adding(t)), t, AddLoadHead(n, AfterAdd))
      else
        SetPc(SetNode(s, n, was.(flag := true), Waiting), t, AddDone)
    case AddLoadHead(n, back) => SetPc(s, t, AddStoreNext(n, s.head, back))
    case AddStoreNext(n, h, back) => SetPc(s.(next := s.next[n := h]), t, AddStoreRefs(n, h, back))
    case AddStoreRefs(n, h, back) => SetPc(SetNode(s, n, Refs(1, false), Publishing(t)), t, AddCasHead(n, h, back))
    case AddCasHead(n, h, back) =>
      if s.head == h then
        SetPc(SetNode(s, n, s.refs[n], OnList).(head := Some(n), list := [n] + s.list), t, Return(back))
      else SetPc(s, t, AddGiveUp(n, s.head, back))
    case AddGiveUp(n, h, back) =>
      var was := s.refs[n];
      var r := Refs(was.count - 1, true);
      if was == Refs(1, false) then SetPc(SetNode(s, n, r, Adding(t)), t, AddStoreNext(n, h, back))
      else SetPc(SetNode(s, n, r, Waiting), t, Return(back))
    case GetLoadHead => SetPc(s, t, Loop(s.head))
    case GetLoadRefs(n) =>
      SetPc(s, t, if s.refs[n].count == 0 then GetLoadHead else GetCasRefs(n, s.refs[n]))
    case GetCasRefs(n, r) =>
      if s.refs[n] == r then SetPc(SetNode(s, n, r.(count := r.count + 1), s.place[n]), t, GetLoadNext(n))
      else SetPc(s, t, GetLoadHead)
    case GetLoadNext(n) => SetPc(s, t, GetCasHead(n, s.next[n]))
    case GetCasHead(n, next) =>
      if s.head == Some(n) then
        SetPc(SetNode(s, n, s.refs[n], Taken(t)).(head := next, list := if s.list == [] then [] else s.list[1..]),
              t, GetDropTwo(n))
      else SetPc(s, t, GetDropOne(n, s.head))
    case GetDropTwo(n) =>
      SetPc(SetNode(s, n, s.refs[n].(count := s.refs[n].count - 2), Outside), t, GetDone(Some(n)))
    case GetDropOne(n, h) =>
      var was := s.refs[n];
      var r := was.(count := was.count - 1);
      if was == Refs(1, true) then SetPc(SetNode(s, n, r, Adding(t)), t, AddLoadHead(n, AfterGet(h)))
      else SetPc(SetNode(s, n, r, s.place[n]), t, Loop(h))
    case _ => s
  }

  /** Clients add only nodes they hold; an event that is not enabled changes nothing. */
  function Step(s: State, e: Event): State
    requires WellFormed(s)
  {
    if e.t >= |s.pcs| then s else
    match e
    case CallAdd(t, n) =>
      if Ready(s.pcs[t]) && n < |s.place| && s.place[n] == Outside then
        SetPc(SetNode(s, n, s.refs[n], Returning(t)), t, AddFlag(n))
      else s
    case CallTryGet(t) => if Ready(s.pcs[t]) then SetPc(s, t, GetLoadHead) else s
    case Go(t) => Act(s, t)
  }

  /** Changing one thread, one node and the head inside the pool keeps all indices in the pool. */
  lemma StaysWellFormed(s: State, s': State, t: nat)
    requires WellFormed(s) && t < |s.pcs| && |s'.pcs| == |s.pcs| && s'.pcs == s.pcs[t := s'.pcs[t]]
    requires |s'.next| == |s'.refs| == |s'.place| == |s.refs|
    requires NodeIn(s'.head, |s.refs|) && PcIn(s'.pcs[t], |s.refs|)
    requires s'.next == s.next || (s.pcs[t].AddStoreNext? && s.pcs[t].n < |s.next| && s'.next == s.next[s.pcs[t].n := s.pcs[t].h])
    ensures WellFormed(s')
  {
    assert PcIn(s.pcs[t], |s.refs|);
  }

  lemma ActShape(s: State, t: nat)
    requires WellFormed(s) && t < |s.pcs|
    ensures
      var s' := Act(s, t);
      && |s'.pcs| == |s.pcs| && s'.pcs == s.pcs[t := s'.pcs[t]]
      && |s'.next| == |s'.refs| == |s'.place| == |s.refs|
      && NodeIn(s'.head, |s.refs|) && PcIn(s'.pcs[t], |s.refs|)
  {
    assert PcIn(s.pcs[t], |s.refs|);
    if s.pcs[t].GetLoadNext? { assert NodeIn(s.next[s.pcs[t].n], |s.refs|); }
  }

  lemma StepWellFormed(s: State, e: Event)
    requires WellFormed(s)
    ensures WellFormed(Step(s, e)) && |Step(s, e).refs| == |s.refs| && |Step(s, e).pcs| == |s.pcs|
  {
    if e.t < |s.pcs| {
      if e.Go? { ActShape(s, e.t); }
      StaysWellFormed(s, Step(s, e), e.t);
    }
  }

  /** The state after a sequence of events. */
  function Exec(s: State, es: seq<Event>): (r: State)
    requires WellFormed(s)
    ensures WellFormed(r) && |r.refs| == |s.refs| && |r.pcs| == |s.pcs|
    decreases |es|
  {
    if es == [] then s else
    StepWellFormed(s, es[0]);
    Exec(Step(s, es[0]), es[1..])
  }

  // ----- The inductive invariant -----

  /** The thread holds a counted reference to node n. */
  predicate HoldsRef(pc: Pc, n: nat) {
    (pc.GetLoadNext? || pc.GetCasHead? || pc.GetDropTwo? || pc.GetDropOne?) && pc.n == n
  }

  ghost function RefWeight(n: nat): Pc -> nat {
    (pc: Pc) => if HoldsRef(pc, n) then 1 else 0
  }

  /** Number of references to n held by threads. */
  ghost function InFlight(s: State, n: nat): nat {
    SumBy(s.pcs, RefWeight(n))
  }

  /** The list's own reference, which its adder and its taker hold for it. */
  predicate HasListRef(p: Place) {
    p.OnList? || p.Publishing? || p.Taken?
  }

  /** The thread a place names is at a program point that works on the node. */
  predicate Works(pc: Pc, p: Place, n: nat) {
    match p
    case Returning(_) => pc.AddFlag? && pc.n == n
    case Adding(_) => (pc.AddLoadHead? || pc.AddStoreNext? || pc.AddStoreRefs?) && pc.n == n
    case Publishing(_) => (pc.AddCasHead? || pc.AddGiveUp?) && pc.n == n
    case Taken(_) => pc.GetDropTwo? && pc.n == n
    case _ => true
  }

  predicate Named(p: Place) {
    p.Returning? || p.Adding? || p.Publishing? || p.Taken?
  }

  ghost predicate NodeOk(s: State, n: nat)
    requires WellFormed(s) && n < |s.refs|
  {
    && s.refs[n].count == (if HasListRef(s.place[n]) then 1 else 0) + InFlight(s, n)
    && s.refs[n].flag == (s.place[n].Adding? || s.place[n].Waiting?)
    && (s.place[n].Adding? ==> InFlight(s, n) == 0)
    && (s.place[n].Waiting? ==> InFlight(s, n) > 0)
    && (Named(s.place[n]) ==> s.place[n].t < |s.pcs| && Works(s.pcs[s.place[n].t], s.place[n], n))
  }

  ghost predicate ThreadOk(s: State, t: nat)
    requires WellFormed(s) && t < |s.pcs|
  {
    match s.pcs[t]
    case AddFlag(n) => n < |s.place| && s.place[n] == Returning(t)
    case AddLoadHead(n, _) => n < |s.place| && s.place[n] == Adding(t)
    case AddStoreNext(n, _, _) => n < |s.place| && s.place[n] == Adding(t)
    case AddStoreRefs(n, h, _) => n < |s.place| && s.place[n] == Adding(t) && s.next[n] == h
    case AddCasHead(n, h, _) => n < |s.place| && s.place[n] == Publishing(t) && s.next[n] == h
    case AddGiveUp(n, _, _) => n < |s.place| && s.place[n] == Publishing(t)
    case GetCasRefs(_, r) => r.count != 0
    case GetCasHead(n, next) => n < |s.place| && s.next[n] == next
    case GetDropTwo(n) => n < |s.place| && s.place[n] == Taken(t)
    case _ => true
  }

  function Link(list: seq<nat>, i: nat): Option<nat> {
    if i < |list| then Some(list[i]) else None
  }

  /** The history list is the chain of `next` links from the head, without repetition. */
  ghost predicate ListOk(s: State)
    requires WellFormed(s)
  {
    && s.head == Link(s.list, 0)
    && (forall i: nat :: i < |s.list| ==> s.list[i] < |s.place| && s.place[s.list[i]] == OnList)
    && (forall i: nat {:trigger s.next[s.list[i]]} :: i < |s.list| ==> s.next[s.list[i]] == Link(s.list, i + 1))
    && (forall i: nat, j: nat :: i < j < |s.list| ==> s.list[i] != s.list[j])
    && (forall n: nat :: n < |s.place| && s.place[n] == OnList ==> n in s.list)
  }

  ghost predicate Inv(s: State) {
    && WellFormed(s)
    && ListOk(s)
    && (forall n: nat {:trigger NodeOk(s, n)} :: n < |s.refs| ==> NodeOk(s, n))
    && (forall t: nat {:trigger ThreadOk(s, t)} :: t < |s.pcs| ==> ThreadOk(s, t))
  }

  // ----- Preservation -----

  /** A node that the moving thread neither held nor works on keeps its invariant. */
  lemma OtherNode(s: State, s': State, t: nat, m: nat)
    requires WellFormed(s) && WellFormed(s') && t < |s.pcs| && m < |s.refs| && NodeOk(s, m) && ThreadOk(s, t)
    requires |s'.refs| == |s.refs| && |s'.pcs| == |s.pcs| && s'.pcs == s.pcs[t := s'.pcs[t]]
    requires s'.refs[m] == s.refs[m] && s'.place[m] == s.place[m]
    requires HoldsRef(s'.pcs[t], m) == HoldsRef(s.pcs[t], m)
    requires Named(s.place[m]) && s.place[m].t == t ==> Works(s'.pcs[t], s.place[m], m)
    ensures NodeOk(s', m)
  {
    SumByUpdate(s.pcs, t, s'.pcs[t], RefWeight(m));
  }

  /** A thread in flight is counted. */
  lemma HolderCounts(s: State, t: nat, n: nat)
    requires t < |s.pcs| && HoldsRef(s.pcs[t], n)
    ensures InFlight(s, n) >= 1
  {
    SumByUpdate(s.pcs, t, Idle, RefWeight(n));
  }

  /** A step that changes no memory. */
  lemma LocalStep(s: State, t: nat, pc: Pc)
    requires Inv(s) && t < |s.pcs| && PcIn(pc, |s.refs|)
    requires ThreadOk(SetPc(s, t, pc), t)
    requires forall m: nat :: m < |s.refs| ==> HoldsRef(pc, m) == HoldsRef(s.pcs[t], m)
    requires forall m: nat :: m < |s.refs| && Named(s.place[m]) && s.place[m].t == t ==> Works(pc, s.place[m], m)
    ensures Inv(SetPc(s, t, pc))
  {
    var s' := SetPc(s, t, pc);
    assert ThreadOk(s, t);
    forall n: nat | n < |s'.refs| ensures NodeOk(s', n) { assert NodeOk(s, n); OtherNode(s, s', t, n); }
    forall u: nat | u < |s'.pcs| ensures ThreadOk(s', u) { assert ThreadOk(s, u); }
  }

  /** A step of thread t that changes one node only. */
  lemma NodeStep(s: State, s': State, t: nat, n: nat)
    requires Inv(s) && t < |s.pcs| && n < |s.refs|
    requires WellFormed(s') && |s'.refs| == |s.refs| && |s'.pcs| == |s.pcs| && s'.pcs == s.pcs[t := s'.pcs[t]]
    requires forall m: nat :: m < |s.refs| && m != n ==>
      s'.refs[m] == s.refs[m] && s'.place[m] == s.place[m] && s'.next[m] == s.next[m]
    requires forall m: nat :: m < |s.refs| && m != n ==> !HoldsRef(s.pcs[t], m) && !HoldsRef(s'.pcs[t], m)
    requires Ready(s.pcs[t]) || (!s.pcs[t].GetLoadHead? && s.pcs[t].n == n)
    requires s'.place[n] == s.place[n] || !Named(s.place[n]) || s.place[n].t == t
    requires s'.next[n] == s.next[n] || s.place[n] == Adding(t)
    requires NodeOk(s', n) && ThreadOk(s', t) && ListOk(s')
    ensures Inv(s')
  {
    assert ThreadOk(s, t);
    forall m: nat | m < |s'.refs| ensures NodeOk(s', m) {
      assert NodeOk(s, m);
      if m != n { OtherNode(s, s', t, m); }
    }
    forall u: nat | u < |s'.pcs| ensures ThreadOk(s', u) {
      assert ThreadOk(s, u) && NodeOk(s, n);
      if u != t && HoldsRef(s.pcs[u], n) { HolderCounts(s, u, n); }
    }
  }

  lemma CallAddStep(s: State, t: nat, n: nat)
    requires Inv(s) && t < |s.pcs| && Ready(s.pcs[t]) && n < |s.place| && s.place[n] == Outside
    ensures Inv(Step(s, CallAdd(t, n)))
  {
    var s' := Step(s, CallAdd(t, n));
    StepWellFormed(s, CallAdd(t, n));
    assert NodeOk(s, n);
    SumByUpdate(s.pcs, t, s'.pcs[t], RefWeight(n));
    NodeStep(s, s', t, n);
  }

  /** A step on a node that is neither linked nor unlinked by it. */
  lemma OffListNode(s: State, s': State, t: nat, n: nat)
    requires Inv(s) && t < |s.pcs| && n < |s.refs|
    requires WellFormed(s') && |s'.refs| == |s.refs| && |s'.pcs| == |s.pcs| && s'.pcs == s.pcs[t := s'.pcs[t]]
    requires s'.head == s.head && s'.list == s.list
    requires forall m: nat :: m < |s.refs| && m != n ==>
      s'.refs[m] == s.refs[m] && s'.place[m] == s.place[m] && s'.next[m] == s.next[m]
    requires forall m: nat :: m < |s.refs| && m != n ==> !HoldsRef(s.pcs[t], m) && !HoldsRef(s'.pcs[t], m)
    requires !Ready(s.pcs[t]) && !s.pcs[t].GetLoadHead? && s.pcs[t].n == n
    requires s'.place[n].OnList? == s.place[n].OnList?
    requires s'.place[n] == s.place[n] || !Named(s.place[n]) || s.place[n].t == t
    requires s'.next[n] == s.next[n] || s.place[n] == Adding(t)
    requires NodeOk(s', n) && ThreadOk(s', t)
    ensures Inv(s')
  {
    NodeStep(s, s', t, n);
  }

  /** Setting the flag makes the caller the adder exactly when nobody holds a reference. */
  lemma FlagStep(s: State, t: nat)
    requires Inv(s) && t < |s.pcs| && s.pcs[t].AddFlag?
    ensures Inv(Act(s, t)) && s.pcs[t].n < |Act(s, t).place|
    ensures Act(s, t).place[s.pcs[t].n] == if InFlight(s, s.pcs[t].n) == 0 then Adding(t) else Waiting
  {
    var s' := Act(s, t);
    var n := s.pcs[t].n;
    StepWellFormed(s, Go(t));
    assert PcIn(s.pcs[t], |s.refs|);
    assert ThreadOk(s, t) && NodeOk(s, n);
    SumByUpdate(s.pcs, t, s'.pcs[t], RefWeight(n));
    OffListNode(s, s', t, n);
  }

  /** The adder may write `next`: no thread can be holding a reference to read it. */
  lemma StoreNextStep(s: State, t: nat)
    requires Inv(s) && t < |s.pcs| && s.pcs[t].AddStoreNext?
    ensures Inv(Act(s, t)) && InFlight(s, s.pcs[t].n) == 0
  {
    var s' := Act(s, t);
    var n := s.pcs[t].n;
    StepWellFormed(s, Go(t));
    assert PcIn(s.pcs[t], |s.refs|);
    assert ThreadOk(s, t) && NodeOk(s, n);
    SumByUpdate(s.pcs, t, s'.pcs[t], RefWeight(n));
    OffListNode(s, s', t, n);
  }

  /** The adder gives the node the reference of the list. */
  lemma StoreRefsStep(s: State, t: nat)
    requires Inv(s) && t < |s.pcs| && s.pcs[t].AddStoreRefs?
    ensures Inv(Act(s, t))
  {
    var s' := Act(s, t);
    var n := s.pcs[t].n;
    StepWellFormed(s, Go(t));
    assert PcIn(s.pcs[t], |s.refs|);
    assert ThreadOk(s, t) && NodeOk(s, n);
    SumByUpdate(s.pcs, t, s'.pcs[t], RefWeight(n));
    OffListNode(s, s', t, n);
  }

  lemma GiveUpKeepsInv(s: State, t: nat)
    requires Inv(s) && t < |s.pcs| && s.pcs[t].AddGiveUp?
    ensures Inv(Act(s, t))
  {
    var s' := Act(s, t);
    var n := s.pcs[t].n;
    StepWellFormed(s, Go(t));
    assert PcIn(s.pcs[t], |s.refs|);
    assert ThreadOk(s, t) && NodeOk(s, n);
    SumByUpdate(s.pcs, t, s'.pcs[t], RefWeight(n));
    OffListNode(s, s', t, n);
  }

  /** After a failed link the adder stays the adder exactly when no reference appeared meanwhile. */
  lemma GiveUpStep(s: State, t: nat)
    requires Inv(s) && t < |s.pcs| && s.pcs[t].AddGiveUp?
    ensures Inv(Act(s, t)) && s.pcs[t].n < |Act(s, t).place|
    ensures var n := s.pcs[t].n;
      if InFlight(s, n) == 0 then Act(s, t).pcs[t].AddStoreNext? && Act(s, t).place[n] == Adding(t)
      else Act(s, t).pcs[t] == Return(s.pcs[t].back) && Act(s, t).place[n] == Waiting
  {
    GiveUpKeepsInv(s, t);
    assert PcIn(s.pcs[t], |s.refs|);
    assert ThreadOk(s, t) && NodeOk(s, s.pcs[t].n);
  }

  /** A reference is only ever added to a node that has one. */
  lemma TakeRefStep(s: State, t: nat)
    requires Inv(s) && t < |s.pcs| && s.pcs[t].GetCasRefs? && s.pcs[t].n < |s.refs| && s.refs[s.pcs[t].n] == s.pcs[t].r
    ensures Inv(Act(s, t))
  {
    var s' := Act(s, t);
    var n := s.pcs[t].n;
    StepWellFormed(s, Go(t));
    assert PcIn(s.pcs[t], |s.refs|);
    assert ThreadOk(s, t) && NodeOk(s, n);
    SumByUpdate(s.pcs, t, s'.pcs[t], RefWeight(n));
    OffListNode(s, s', t, n);
  }

  /** The taker drops its own reference and the one of the list. */
  lemma DropTwoStep(s: State, t: nat)
    requires Inv(s) && t < |s.pcs| && s.pcs[t].GetDropTwo?
    ensures Inv(Act(s, t))
  {
    var s' := Act(s, t);
    var n := s.pcs[t].n;
    StepWellFormed(s, Go(t));
    assert PcIn(s.pcs[t], |s.refs|);
    assert ThreadOk(s, t) && NodeOk(s, n);
    SumByUpdate(s.pcs, t, s'.pcs[t], RefWeight(n));
    OffListNode(s, s', t, n);
  }

  lemma DropOneKeepsInv(s: State, t: nat)
    requires Inv(s) && t < |s.pcs| && s.pcs[t].GetDropOne?
    ensures Inv(Act(s, t))
  {
    var s' := Act(s, t);
    var n := s.pcs[t].n;
    StepWellFormed(s, Go(t));
    assert PcIn(s.pcs[t], |s.refs|);
    assert ThreadOk(s, t) && NodeOk(s, n);
    SumByUpdate(s.pcs, t, s'.pcs[t], RefWeight(n));
    OffListNode(s, s', t, n);
  }

  /** The thread that drops the last reference of a waiting node becomes its adder. */
  lemma DropOneStep(s: State, t: nat)
    requires Inv(s) && t < |s.pcs| && s.pcs[t].GetDropOne?
    ensures Inv(Act(s, t)) && s.pcs[t].n < |s.place| && |Act(s, t).place| == |s.place|
    ensures var n := s.pcs[t].n;
      if s.place[n].Waiting? && InFlight(s, n) == 1 then Act(s, t).place[n] == Adding(t) && AddsNode(Act(s, t).pcs[t], n)
      else Act(s, t).place[n] == s.place[n] && Act(s, t).pcs[t] == Loop(s.pcs[t].h)
  {
    DropOneKeepsInv(s, t);
    assert PcIn(s.pcs[t], |s.refs|);
    assert ThreadOk(s, t) && NodeOk(s, s.pcs[t].n);
    HolderCounts(s, t, s.pcs[t].n);
  }

  lemma PushedList(s: State, t: nat)
    requires Inv(s) && t < |s.pcs| && s.pcs[t].AddCasHead? && s.head == s.pcs[t].h
    requires WellFormed(Act(s, t))
    ensures ListOk(Act(s, t))
  {
    var s' := Act(s, t);
    assert ThreadOk(s, t);
    forall i: nat {:trigger s'.next[s'.list[i]]} {:trigger s'.place[s'.list[i]]} | i < |s'.list|
      ensures s'.list[i] < |s'.place| && s'.place[s'.list[i]] == OnList && s'.next[s'.list[i]] == Link(s'.list, i + 1)
    {
      if i > 0 { assert s'.list[i] == s.list[i - 1]; }
    }
  }

  /** A successful add CAS links the node in front of the true head. */
  lemma PushStep(s: State, t: nat)
    requires Inv(s) && t < |s.pcs| && s.pcs[t].AddCasHead? && s.head == s.pcs[t].h
    ensures Inv(Act(s, t))
  {
    var s' := Act(s, t);
    var n := s.pcs[t].n;
    StepWellFormed(s, Go(t));
    assert PcIn(s.pcs[t], |s.refs|);
    assert ThreadOk(s, t) && NodeOk(s, n);
    SumByUpdate(s.pcs, t, s'.pcs[t], RefWeight(n));
    PushedList(s, t);
    NodeStep(s, s', t, n);
  }

  lemma PoppedList(s: State, t: nat)
    requires Inv(s) && t < |s.pcs| && s.pcs[t].GetCasHead? && s.head == Some(s.pcs[t].n)
    requires WellFormed(Act(s, t))
    ensures s.list != [] && s.list[0] == s.pcs[t].n && ListOk(Act(s, t))
  {
    var s' := Act(s, t);
    assert ThreadOk(s, t);
    assert s.next[s.list[0]] == Link(s.list, 1);
    forall i: nat {:trigger s'.next[s'.list[i]]} | i < |s'.list| ensures s'.next[s'.list[i]] == Link(s'.list, i + 1) {
      assert s'.list[i] == s.list[i + 1];
      assert s.next[s.list[i + 1]] == Link(s.list, i + 2);
    }
  }

  /** A successful get CAS unlinks the first node and installs its true successor. */
  lemma PopStep(s: State, t: nat)
    requires Inv(s) && t < |s.pcs| && s.pcs[t].GetCasHead? && s.head == Some(s.pcs[t].n)
    ensures Inv(Act(s, t))
  {
    var s' := Act(s, t);
    var n := s.pcs[t].n;
    StepWellFormed(s, Go(t));
    assert PcIn(s.pcs[t], |s.refs|);
    assert ThreadOk(s, t) && NodeOk(s, n);
    SumByUpdate(s.pcs, t, s'.pcs[t], RefWeight(n));
    PoppedList(s, t);
    NodeStep(s, s', t, n);
  }

  /** The loads, and the CASes that fail. */
  lemma QuietStep(s: State, t: nat)
    requires Inv(s) && t < |s.pcs|
    requires match s.pcs[t]
      case AddLoadHead(_, _) | GetLoadHead | GetLoadRefs(_) | GetLoadNext(_) => true
      case AddCasHead(_, h, _) => s.head != h
      case GetCasHead(n, _) => s.head != Some(n)
      case GetCasRefs(n, r) => n < |s.refs| && s.refs[n] != r
      case _ => false
    ensures Inv(Act(s, t))
  {
    assert ThreadOk(s, t) && PcIn(s.pcs[t], |s.refs|);
    if s.pcs[t].GetLoadNext? { assert NodeIn(s.next[s.pcs[t].n], |s.refs|); }
    NamedHere(s, t);
    LocalStep(s, t, Act(s, t).pcs[t]);
  }

  lemma ActKeepsInv(s: State, t: nat)
    requires Inv(s) && t < |s.pcs|
    ensures Inv(Act(s, t))
  {
    assert PcIn(s.pcs[t], |s.refs|);
    match s.pcs[t]
    case Idle | AddDone | GetDone(_) =>
    case AddCasHead(n, h, back) => if s.head == h { PushStep(s, t); } else { QuietStep(s, t); }
    case GetCasHead(n, next) => if s.head == Some(n) { PopStep(s, t); } else { QuietStep(s, t); }
    case GetCasRefs(n, r) => if s.refs[n] == r { TakeRefStep(s, t); } else { QuietStep(s, t); }
    case GetDropTwo(_) => DropTwoStep(s, t);
    case GetDropOne(_, _) => DropOneStep(s, t);
    case AddFlag(_) => FlagStep(s, t);
    case AddStoreNext(_, _, _) => StoreNextStep(s, t);
    case AddStoreRefs(_, _, _) => StoreRefsStep(s, t);
    case AddGiveUp(_, _, _) => GiveUpStep(s, t);
    case _ => QuietStep(s, t);
  }

  /** Every node whose place names t is the node t works on. */
  lemma NamedHere(s: State, t: nat)
    requires Inv(s) && t < |s.pcs|
    ensures forall m: nat :: m < |s.refs| && Named(s.place[m]) && s.place[m].t == t ==> Works(s.pcs[t], s.place[m], m)
  {
    forall m: nat | m < |s.refs| && Named(s.place[m]) && s.place[m].t == t ensures Works(s.pcs[t], s.place[m], m) {
      assert NodeOk(s, m);
    }
  }

  lemma StepKeepsInv(s: State, e: Event)
    requires Inv(s)
    ensures Inv(Step(s, e))
  {
    if e.t < |s.pcs| {
      match e
      case CallAdd(t, n) =>
        if Ready(s.pcs[t]) && n < |s.place| && s.place[n] == Outside { CallAddStep(s, t, n); }
      case CallTryGet(t) =>
        if Ready(s.pcs[t]) { NamedHere(s, t); LocalStep(s, t, GetLoadHead); }
      case Go(t) => ActKeepsInv(s, t);
    }
  }

  lemma InitInv(nodes: nat, threads: nat)
    ensures Inv(Init(nodes, threads))
  {
    var s := Init(nodes, threads);
    forall n: nat | n < |s.refs| ensures NodeOk(s, n) { SumByZero(s.pcs, RefWeight(n)); }
  }

  lemma {:induction false} ExecKeepsInv(s: State, es: seq<Event>)
    requires Inv(s)
    ensures Inv(Exec(s, es))
    decreases |es|
  {
    if es != [] {
      StepKeepsInv(s, es[0]);
      ExecKeepsInv(Step(s, es[0]), es[1..]);
    }
  }

  // ----- Main results -----

  /** Program points between the moment a node's count is known to be zero and the link CAS. */
  predicate AddsNode(pc: Pc, n: nat) {
    (pc.AddLoadHead? || pc.AddStoreNext? || pc.AddStoreRefs? || pc.AddCasHead? || pc.AddGiveUp?) && pc.n == n
  }

  /**
   In every run: a node's count is the reference of the list plus the references
   in flight; at most one thread adds it and at most one has just taken it,
   never both; nobody but the adder can change `next`, so a thread about to
   CAS the head still knows the true successor; and the links from the head
   spell out a list without repetition.
   */
  lemma CountsAndOwners(nodes: nat, threads: nat, es: seq<Event>, n: nat, t: nat, u: nat)
    requires n < nodes && t < threads && u < threads
    ensures
      var s := Exec(Init(nodes, threads), es);
      && s.refs[n].count == (if HasListRef(s.place[n]) then 1 else 0) + InFlight(s, n)
      && (AddsNode(s.pcs[t], n) && AddsNode(s.pcs[u], n) ==> t == u)
      && (s.pcs[t] == s.pcs[u] == GetDropTwo(n) ==> t == u)
      && !(AddsNode(s.pcs[t], n) && s.pcs[u] == GetDropTwo(n))
      && (s.pcs[t].GetDropTwo? && s.pcs[t].n == n ==> !s.refs[n].flag && n !in s.list)
      && (s.pcs[t].GetCasHead? && s.pcs[t].n == n ==> s.pcs[t].next == s.next[n])
      && ListOk(s)
  {
    var s := Exec(Init(nodes, threads), es);
    InitInv(nodes, threads);
    ExecKeepsInv(Init(nodes, threads), es);
    assert NodeOk(s, n) && ThreadOk(s, t) && ThreadOk(s, u);
  }

  /** Event e begins an `add` of node n. */
  predicate Adds(s: State, e: Event, n: nat) {
    e.CallAdd? && e.n == n && e.t < |s.pcs| && Ready(s.pcs[e.t]) && n < |s.place| && s.place[n] == Outside
  }

  /** Event e completes a `try_get` that returns node n. */
  predicate Gets(s: State, e: Event, n: nat) {
    e.Go? && e.t < |s.pcs| && s.pcs[e.t] == GetDropTwo(n)
  }

  /** A node leaves its client only by `add`, and comes to one only by the `try_get` that unlinked it. */
  lemma OutsideChanges(s: State, e: Event, n: nat)
    requires Inv(s) && n < |s.place|
    ensures |Step(s, e).place| == |s.place|
    ensures Adds(s, e, n) ==> s.place[n] == Outside && Step(s, e).place[n] != Outside
    ensures Gets(s, e, n) ==> s.place[n] == Taken(e.t) && Step(s, e).place[n] == Outside && Step(s, e).pcs[e.t] == GetDone(Some(n))
    ensures !Adds(s, e, n) && !Gets(s, e, n) ==> (Step(s, e).place[n] == Outside <==> s.place[n] == Outside)
  {
    assert NodeOk(s, n);
    if e.t < |s.pcs| {
      assert PcIn(s.pcs[e.t], |s.refs|);
      assert ThreadOk(s, e.t);
      if e.Go? && HoldsRef(s.pcs[e.t], n) { HolderCounts(s, e.t, n); }
    }
  }

  /** A node with a client stays with it, off the list, until a client adds it: no second getter can receive it. */
  lemma {:induction false} ClientKeepsNode(s: State, es: seq<Event>, n: nat)
    requires Inv(s) && n < |s.place| && s.place[n] == Outside
    requires forall i: nat :: i < |es| && es[i].CallAdd? ==> es[i].n != n
    ensures n < |Exec(s, es).place| && Exec(s, es).place[n] == Outside && n !in Exec(s, es).list
    ensures GetCount(s, es, n) == 0
    decreases |es|
  {
    if es != [] {
      OutsideChanges(s, es[0], n);
      StepKeepsInv(s, es[0]);
      ClientKeepsNode(Step(s, es[0]), es[1..], n);
    }
  }

  ghost function GetCount(s: State, es: seq<Event>, n: nat): nat
    requires WellFormed(s)
    decreases |es|
  {
    if es == [] then 0 else
    StepWellFormed(s, es[0]);
    (if Gets(s, es[0], n) then 1 else 0) + GetCount(Step(s, es[0]), es[1..], n)
  }

  ghost function AddCount(s: State, es: seq<Event>, n: nat): nat
    requires WellFormed(s)
    decreases |es|
  {
    if es == [] then 0 else
    StepWellFormed(s, es[0]);
    (if Adds(s, es[0], n) then 1 else 0) + AddCount(Step(s, es[0]), es[1..], n)
  }

  lemma {:induction false} CountsBalance(s: State, es: seq<Event>, n: nat)
    requires Inv(s) && n < |s.place|
    ensures |Exec(s, es).place| == |s.place|
    ensures GetCount(s, es, n) - AddCount(s, es, n) ==
      (if Exec(s, es).place[n] == Outside then 1 else 0) - (if s.place[n] == Outside then 1 else 0)
    decreases |es|
  {
    if es != [] {
      OutsideChanges(s, es[0], n);
      StepKeepsInv(s, es[0]);
      CountsBalance(Step(s, es[0]), es[1..], n);
    }
  }

  /**
   In every run the hand-outs of a node alternate with the adds of it: it was
   given out as often as it was added, or once less while the list has it. So
   no node is ever with two getters.
   */
  lemma HandedOutOnce(nodes: nat, threads: nat, es: seq<Event>, n: nat)
    requires n < nodes
    ensures
      var s := Exec(Init(nodes, threads), es);
      var adds, gets := AddCount(Init(nodes, threads), es, n), GetCount(Init(nodes, threads), es, n);
      && n < |s.place| && gets <= adds <= gets + 1
      && (adds == gets <==> s.place[n] == Outside)
      && (adds == gets ==> n !in s.list)
  {
    InitInv(nodes, threads);
    CountsBalance(Init(nodes, threads), es, n);
    ExecKeepsInv(Init(nodes, threads), es);
  }

  /** While any thread holds a reference to a node, no step changes its `next`. */
  lemma NextFrozen(s: State, e: Event, n: nat)
    requires Inv(s) && n < |s.next| && InFlight(s, n) > 0
    ensures |Step(s, e).next| == |s.next| && Step(s, e).next[n] == s.next[n]
  {
    assert NodeOk(s, n);
    if e.t < |s.pcs| {
      assert PcIn(s.pcs[e.t], |s.refs|);
      assert ThreadOk(s, e.t);
    }
  }

  /**
   The list is a stack of nodes: a step pushes a node that one thread owned,
   pops the first node into the hands of one thread, or leaves it alone. A popped
   node goes to its taker and stays away from the list until a client adds it.
   */
  lemma StepRefinesStack(s: State, e: Event)
    requires Inv(s)
    ensures
      var s' := Step(s, e);
      if !e.Go? || e.t >= |s.pcs| then
        && s'.list == s.list && s'.head == s.head && |s'.place| == |s.place|
        && forall n: nat :: n < |s.place| ==> s'.place[n] == if Adds(s, e, n) then Returning(e.t) else s.place[n]
      else StackStep(s, s', e.t)
  {
    if e.Go? && e.t < |s.pcs| { GoRefinesStack(s, e.t); }
  }

  lemma GoRefinesStack(s: State, t: nat)
    requires Inv(s) && t < |s.pcs|
    ensures StackStep(s, Act(s, t), t)
  {
    assert PcIn(s.pcs[t], |s.refs|);
    assert ThreadOk(s, t);
    if !s.pcs[t].GetDropTwo? && !s.pcs[t].GetCasHead? && !s.pcs[t].AddCasHead? {
      ActShape(s, t);
      forall n: nat {:trigger s.place[n]} | n < |s.place| ensures Act(s, t).place[n] == Outside <==> s.place[n] == Outside {
        OutsideChanges(s, Go(t), n);
      }
    }
  }

  ghost predicate StackStep(s: State, s': State, t: nat)
    requires t < |s.pcs|
  {
    match s.pcs[t]
    case GetCasHead(n, _) =>
      if s.head != Some(n) then s'.list == s.list && s'.place == s.place else
        && |s.list| > 0 && n == s.list[0] && s'.list == s.list[1..] && s'.head == Link(s.list, 1)
        && |s'.place| == |s.place| && n < |s.place| && s'.place == s.place[n := Taken(t)]
        && |s'.pcs| == |s.pcs| && s'.pcs[t] == GetDropTwo(n)
    case AddCasHead(n, h, _) =>
      if s.head != h then s'.list == s.list && s'.place == s.place else
        && s'.list == [n] + s.list && n !in s.list && s'.head == Some(n)
        && |s'.place| == |s.place| && n < |s.place| && s.place[n] == Publishing(t) && s'.place == s.place[n := OnList]
    case GetDropTwo(n) =>
      && s'.list == s.list && n < |s.place| == |s'.place| && s.place[n] == Taken(t) && s'.place == s.place[n := Outside]
      && |s'.pcs| == |s.pcs| && s'.pcs[t] == GetDone(Some(n))
    case _ =>
      && s'.list == s.list && s'.head == s.head && |s'.place| == |s.place|
      && forall n: nat :: n < |s.place| ==> (s'.place[n] == Outside <==> s.place[n] == Outside)
  }

  /** Nothing is lost: when no operation is running, every node is on the list or with a client. */
  lemma QuiescentNodes(s: State, n: nat)
    requires Inv(s) && n < |s.refs| && forall t: nat :: t < |s.pcs| ==> Ready(s.pcs[t])
    ensures (n in s.list && s.refs[n] == Refs(1, false)) || (s.place[n] == Outside && s.refs[n] == Refs(0, false))
  {
    assert NodeOk(s, n);
    SumByZero(s.pcs, RefWeight(n));
  }

  // ----- Answers -----

  /** The head load of `try_get` answers null exactly on an empty list, and otherwise goes for its first node. */
  lemma LoadHeadAnswers(s: State, t: nat)
    requires Inv(s) && t < |s.pcs| && s.pcs[t].GetLoadHead?
    ensures Act(s, t) == SetPc(s, t, if s.list == [] then GetDone(None) else GetLoadRefs(s.list[0]))
  {
  }

  /** The call has loaded a null head and will answer null when it is done with the node in its hands. */
  predicate NullSeen(pc: Pc) {
    match pc
    case GetDropOne(_, h) => h == None
    case AddLoadHead(_, back) => back == AfterGet(None)
    case AddStoreNext(_, _, back) => back == AfterGet(None)
    case AddStoreRefs(_, _, back) => back == AfterGet(None)
    case AddCasHead(_, _, back) => back == AfterGet(None)
    case AddGiveUp(_, _, back) => back == AfterGet(None)
    case GetDone(r) => r == None
    case _ => false
  }

  /**
   How calls end. A `try_get` answers a node only by dropping the references of
   the node it unlinked, and null only if it loads or has loaded a null head; an
   `add` ends only with its node linked by this thread, or flagged and left to
   the thread that drops the last reference.
   */
  lemma AnswerJustified(s: State, t: nat)
    requires Inv(s) && t < |s.pcs| && !Ready(s.pcs[t])
    ensures |Act(s, t).pcs| == |s.pcs| && |Act(s, t).place| == |s.place|
    ensures
      var pc, s' := s.pcs[t], Act(s, t);
      Ready(s'.pcs[t]) ==>
        match s'.pcs[t]
        case GetDone(r) =>
          if r.Some? then r.value < |s.place| && s.place[r.value] == Taken(t) && s'.place == s.place[r.value := Outside]
          else s.list == [] || NullSeen(pc)
        case AddDone =>
          && (pc.AddFlag? || pc.AddCasHead? || pc.AddGiveUp?) && pc.n < |s.place|
          && (s'.place[pc.n] == Waiting || (s'.place[pc.n] == OnList && s'.list == [pc.n] + s.list))
        case _ => false
  {
    assert PcIn(s.pcs[t], |s.refs|);
    assert ThreadOk(s, t);
  }

  /** A call begins whenever its thread is ready, and an `add` takes the node from its client at once. */
  lemma CallBegins(s: State, t: nat, n: nat)
    requires WellFormed(s) && t < |s.pcs| && Ready(s.pcs[t])
    ensures
      var get := Step(s, CallTryGet(t));
      && |get.pcs| == |s.pcs| && !Ready(get.pcs[t]) && !NullSeen(get.pcs[t]) && get == s.(pcs := get.pcs) && get.pcs == s.pcs[t := get.pcs[t]]
    ensures n < |s.place| && s.place[n] == Outside ==>
      var add := Step(s, CallAdd(t, n));
      && |add.pcs| == |s.pcs| && !Ready(add.pcs[t]) && Adds(s, CallAdd(t, n), n)
      && add == s.(pcs := add.pcs, place := s.place[n := Returning(t)]) && add.pcs == s.pcs[t := add.pcs[t]]
  {
  }

  /**
   A `try_get` goes round only because others moved: the node it loaded has left
   the list with nobody holding it, its count changed since the load, or
   another node is first. Otherwise each access leads to the next.
   */
  lemma RetryMeansProgress(s: State, t: nat)
    requires Inv(s) && t < |s.pcs|
    ensures |Act(s, t).pcs| == |s.pcs|
    ensures
      var pc, pc' := s.pcs[t], Act(s, t).pcs[t];
      && PcIn(pc, |s.refs|)
      && (pc.GetLoadRefs? ==>
            if pc.n in s.list || InFlight(s, pc.n) > 0 then pc' == GetCasRefs(pc.n, s.refs[pc.n])
            else pc' == GetLoadHead || pc' == GetCasRefs(pc.n, s.refs[pc.n]))
      && (pc.GetCasRefs? && s.refs[pc.n] == pc.r ==> pc' == GetLoadNext(pc.n))
      && (pc.GetLoadNext? ==> pc' == GetCasHead(pc.n, s.next[pc.n]))
      && (pc.GetCasHead? ==> pc' == if s.list != [] && s.list[0] == pc.n then GetDropTwo(pc.n) else GetDropOne(pc.n, s.head))
  {
    assert PcIn(s.pcs[t], |s.refs|);
    assert ThreadOk(s, t);
    if s.pcs[t].GetLoadRefs? { assert NodeOk(s, s.pcs[t].n); }
  }

  /** A null head is loaded only from an empty list. */
  lemma NullLoaded(s: State, e: Event, t: nat)
    requires Inv(s) && t < |s.pcs| == |Step(s, e).pcs| && !NullSeen(s.pcs[t]) && NullSeen(Step(s, e).pcs[t])
    ensures s.head == None && s.list == [] && e == Go(t)
  {
    if e.t < |s.pcs| { assert PcIn(s.pcs[e.t], |s.refs|); }
  }

  /**
   Over any stretch of a run that begins before thread t has seen a null head,
   as every call does: if t has answered null at its end, the list was empty at
   some moment of the stretch, and t loaded the head then.
   */
  lemma {:induction false} NullMeansEmpty(s: State, es: seq<Event>, t: nat) returns (k: nat)
    requires Inv(s) && t < |s.pcs| && !NullSeen(s.pcs[t]) && NullSeen(Exec(s, es).pcs[t])
    ensures k < |es| && es[k] == Go(t) && Exec(s, es[..k]).list == []
    decreases |es|
  {
    var s' := Step(s, es[0]);
    StepWellFormed(s, es[0]);
    if NullSeen(s'.pcs[t]) {
      NullLoaded(s, es[0], t);
      assert es[..0] == [];
      k := 0;
    } else {
      StepKeepsInv(s, es[0]);
      var j := NullMeansEmpty(s', es[1..], t);
      k := j + 1;
      assert es[..k][1..] == es[1..][..j];
    }
  }

  // ----- Undisturbed calls -----

  /** k accesses of thread t with nobody else moving. */
  function Acts(s: State, t: nat, k: nat): (r: State)
    requires WellFormed(s) && t < |s.pcs|
    ensures WellFormed(r) && |r.pcs| == |s.pcs| && |r.refs| == |s.refs|
  {
    if k == 0 then s else
    var r := Acts(s, t, k - 1);
    StepWellFormed(r, Go(t));
    Act(r, t)
  }

  ghost predicate AllReady(s: State) {
    forall t: nat :: t < |s.pcs| ==> Ready(s.pcs[t])
  }

  /** The references to the first node are taken: the state before the head CAS. */
  lemma TakesFirst(s: State, t: nat)
    requires Inv(s) && AllReady(s) && t < |s.pcs| && s.list != []
    ensures s.list[0] < |s.refs| == |s.next| == |s.place|
    ensures
      var n := s.list[0];
      Acts(SetPc(s, t, GetLoadHead), t, 4) ==
        SetPc(SetNode(s, n, Refs(2, false), s.place[n]), t, GetCasHead(n, s.next[n]))
  {
    var n := s.list[0];
    QuiescentNodes(s, n);
    var s1 := SetPc(s, t, GetLoadRefs(n));
    var s2 := SetPc(s, t, GetCasRefs(n, Refs(1, false)));
    var s3 := SetPc(SetNode(s, n, Refs(2, false), s.place[n]), t, GetLoadNext(n));
    var s0 := SetPc(s, t, GetLoadHead);
    assert Acts(s0, t, 1) == s1 by { assert Acts(s0, t, 0) == s0; }
    assert Acts(s0, t, 2) == s2;
    assert Acts(s0, t, 3) == s3;
  }

  /** The head CAS and the drop of two references. */
  lemma PopsFirst(s: State, t: nat, s4: State)
    requires Inv(s) && t < |s.pcs| && s.list != [] && s.list[0] < |s.refs| == |s.next| == |s.place|
    requires s4 == SetPc(SetNode(s, s.list[0], Refs(2, false), s.place[s.list[0]]), t, GetCasHead(s.list[0], s.next[s.list[0]]))
    requires WellFormed(s4) && WellFormed(Act(s4, t)) && |Act(s4, t).pcs| == |s.pcs|
    ensures
      var r := Act(Act(s4, t), t);
      && |r.pcs| == |s.pcs| && r.pcs[t] == GetDone(Some(s.list[0])) && r.list == s.list[1..] && r.place == s.place[s.list[0] := Outside]
  {
    var n, s5 := s.list[0], Act(s4, t);
    assert s5.pcs[t] == GetDropTwo(n) && s5.list == s.list[1..] && s5.place == s.place[n := Taken(t)];
    assert s5.place[n := Outside] == s.place[n := Outside];
  }

  /** Undisturbed, `try_get` answers null exactly on an empty list, and otherwise unlinks and answers the first node. */
  lemma SoloTryGet(s: State, t: nat)
    requires Inv(s) && AllReady(s) && t < |s.pcs|
    ensures
      var s0 := Step(s, CallTryGet(t));
      && WellFormed(s0) && t < |s0.pcs|
      && if s.list == [] then Acts(s0, t, 1) == SetPc(s, t, GetDone(None))
         else
           var r := Acts(s0, t, 6);
           r.pcs[t] == GetDone(Some(s.list[0])) && r.list == s.list[1..] && r.place == s.place[s.list[0] := Outside]
  {
    var s0 := SetPc(s, t, GetLoadHead);
    StepWellFormed(s, CallTryGet(t));
    if s.list == [] {
      assert Acts(s0, t, 0) == s0;
    } else {
      TakesFirst(s, t);
      var s4 := Acts(s0, t, 4);
      assert Acts(s0, t, 5) == Act(s4, t);
      assert Acts(s0, t, 6) == Act(Act(s4, t), t);
      PopsFirst(s, t, s4);
    }
  }

  /** Undisturbed, `add` of a client's node ends with it in front of the list. */
  lemma SoloAdd(s: State, t: nat, n: nat)
    requires Inv(s) && AllReady(s) && t < |s.pcs| && n < |s.place| && s.place[n] == Outside
    ensures
      var s0 := Step(s, CallAdd(t, n));
      && WellFormed(s0) && t < |s0.pcs|
      && var r := Acts(s0, t, 5);
         r.pcs[t] == AddDone && r.list == [n] + s.list && r.head == Some(n)
         && n < |r.next| == |r.refs| && r.next[n] == s.head && r.refs[n] == Refs(1, false)
  {
    var s0 := Step(s, CallAdd(t, n));
    StepWellFormed(s, CallAdd(t, n));
    QuiescentNodes(s, n);
    var s1 := SetPc(SetNode(s, n, Refs(0, true), Adding(t)), t, AddLoadHead(n, AfterAdd));
    var s2 := SetPc(s1, t, AddStoreNext(n, s.head, AfterAdd));
    var s3 := SetPc(s1.(next := s.next[n := s.head]), t, AddStoreRefs(n, s.head, AfterAdd));
    assert Acts(s0, t, 0) == s0;
    assert Acts(s0, t, 1) == s1;
    assert Acts(s0, t, 2) == s2;
    assert Acts(s0, t, 3) == s3;
    assert Acts(s0, t, 4) == Act(s3, t);
    assert Acts(s0, t, 5) == Act(Act(s3, t), t);
  }
}
