/**
 `LockFreeThreadSafePool` of include/MemoryPool.hpp: a Treiber stack over slot
 indices whose 64-bit head packs a 32-bit index and a 32-bit tag. One atomic
 access per step, any number of threads, every interleaving, sequentially
 consistent memory. Index masking and the wrap-around of the tag are modelled.
 */
module TaggedPool {
  import opened Basics

  const HALF: nat := 0x1_0000_0000
  const WORD: nat := 0x1_0000_0000_0000_0000
  /** What the index -1 becomes once it is packed. */
  const NIL: nat := HALF - 1

  /** The head as a 64-bit number. */
  function Pack(index: nat, tag: nat): nat {
    (tag % HALF) * HALF + index % HALF
  }

  function UnpackIndex(packed: nat): nat {
    packed % HALF
  }

  function UnpackTag(packed: nat): nat {
    (packed / HALF) % HALF
  }

  /** The head as its two halves; what `unpack` sees of what `pack` stored. */
  datatype Head = Head(index: nat, tag: nat)

  function Halves(index: nat, tag: nat): Head {
    Head(index % HALF, tag % HALF)
  }

  /** `unpack` after `pack` gives the two halves, and two packed heads are equal exactly when their halves are. */
  lemma PackHalves(i: nat, t: nat, j: nat, u: nat)
    ensures Pack(i, t) < WORD && Head(UnpackIndex(Pack(i, t)), UnpackTag(Pack(i, t))) == Halves(i, t)
    ensures Pack(i, t) == Pack(j, u) <==> Halves(i, t) == Halves(j, u)
  {
    assert UnpackIndex(Pack(i, t)) == i % HALF && UnpackTag(Pack(i, t)) == t % HALF;
    assert UnpackIndex(Pack(j, u)) == j % HALF && UnpackTag(Pack(j, u)) == u % HALF;
  }

  /** Packing is faithful exactly for 32-bit operands. */
  lemma PackRoundTrip(index: nat, tag: nat)
    ensures UnpackIndex(Pack(index, tag)) == index && UnpackTag(Pack(index, tag)) == tag <==> index < HALF && tag < HALF
  {
    PackHalves(index, tag, index, tag);
  }

  /** `index == -1` compares a masked value with the 64-bit -1: no head ever passes the test. */
  lemma ExhaustionTestNeverFires(packed: nat)
    ensures UnpackIndex(packed) != WORD - 1
  {
  }

  datatype Pc =
    | Idle
    | AllocLoad
    | AllocRead(seen: Head, ver: nat, snap: seq<nat>)
    | AllocCas(seen: Head, next: nat, ver: nat, snap: seq<nat>)
    | AllocDone(index: nat)
    | AllocNull
    | OutOfRange          // nextFree_ was indexed past its end
    | FreeLoad(index: nat)
    | FreeWrite(index: nat, seen: Head, ver: nat, snap: seq<nat>)
    | FreeCas(index: nat, seen: Head, ver: nat, snap: seq<nat>)
    | FreeDone

  /** History: who has a slot. */
  datatype Holder = InFree | Client | Freeing(t: nat)

  /** `ver`, `free` and `holders` are history: successful CASes so far, the free chain, the owners. */
  datatype State = State(
    head: Head,
    nextFree: seq<nat>,
    pcs: seq<Pc>,
    ver: nat,
    free: seq<nat>,
    holders: seq<Holder>)

  datatype Event = CallAllocate(t: nat) | CallDeallocate(t: nat, index: nat) | Go(t: nat, weakFails: bool)

  function Init(size: nat, threads: nat): State
    requires size > 0
  {
    State(Halves(size - 1, 0), seq(size, i => if i == 0 then WORD - 1 else i - 1), seq(threads, _ => Idle),
          0, seq(size, (i: nat) requires i < size => size - 1 - i), seq(size, _ => InFree))
  }

  predicate Ready(pc: Pc) {
    pc.Idle? || pc.AllocDone? || pc.AllocNull? || pc.FreeDone?
  }

  function SetPc(s: State, t: nat, pc: Pc): State
    requires t < |s.pcs|
  {
    s.(pcs := s.pcs[t := pc])
  }

  function Tail(free: seq<nat>): seq<nat> {
    if free == [] then [] else free[1..]
  }

  function SetHolder(hs: seq<Holder>, i: nat, h: Holder): seq<Holder> {
    if i < |hs| then hs[i := h] else hs
  }

  /** One atomic action of `allocate` or `deallocate` by thread t. */
  function Act(s: State, t: nat, weakFails: bool): State
    requires t < |s.pcs|
  {
    match s.pcs[t]
    case AllocLoad => SetPc(s, t, AllocRead(s.head, s.ver, s.free))
    case AllocRead(seen, ver, snap) =>
      var index := seen.index;
      if index == WORD - 1 then SetPc(s, t, AllocNull)
      else if index < |s.nextFree| then SetPc(s, t, AllocCas(seen, s.nextFree[index], ver, snap))
      else SetPc(s, t, OutOfRange)
    case AllocCas(seen, next, ver, snap) =>
      if s.head == seen && !weakFails then
        var index := seen.index;
        SetPc(s, t, AllocDone(index))
          .(head := Halves(next, seen.tag + 1), ver := s.ver + 1, free := Tail(s.free),
            holders := SetHolder(s.holders, index, Client))
      else SetPc(s, t, AllocRead(s.head, s.ver, s.free))
    case FreeLoad(index) => SetPc(s, t, FreeWrite(index, s.head, s.ver, s.free))
    case FreeWrite(index, seen, ver, snap) =>
      if index < |s.nextFree| then
        SetPc(s, t, FreeCas(index, seen, ver, snap)).(nextFree := s.nextFree[index := seen.index])
      else SetPc(s, t, OutOfRange)
    case FreeCas(index, seen, ver, snap) =>
      if s.head == seen && !weakFails then
        SetPc(s, t, FreeDone)
          .(head := Halves(index, seen.tag + 1), ver := s.ver + 1, free := [index] + s.free,
            holders := SetHolder(s.holders, index, InFree))
      else SetPc(s, t, FreeWrite(index, s.head, s.ver, s.free))
    case _ => s
  }

  function Step(s: State, e: Event): State {
    if e.t >= |s.pcs| then s else
    match e
    case CallAllocate(t) => if Ready(s.pcs[t]) then SetPc(s, t, AllocLoad) else s
    case CallDeallocate(t, index) =>
      if Ready(s.pcs[t]) then
        SetPc(s, t, FreeLoad(index)).(holders := SetHolder(s.holders, index, Freeing(t)))
      else s
    case Go(t, weakFails) => Act(s, t, weakFails)
  }

  function Exec(s: State, es: seq<Event>): State
    decreases |es|
  {
    if es == [] then s else Exec(Step(s, es[0]), es[1..])
  }

  // ----- The hypotheses on a run -----

  ghost function BusyWeight(): Holder -> nat {
    (h: Holder) => if h.InFree? then 0 else 1
  }

  predicate Allocating(pc: Pc) {
    pc.AllocLoad? || pc.AllocRead? || pc.AllocCas?
  }

  ghost function AllocWeight(): Pc -> nat {
    (pc: Pc) => if Allocating(pc) then 1 else 0
  }

  /** Slots not in the free chain plus threads inside `allocate`. */
  ghost function Reserved(s: State): nat {
    SumBy(s.holders, BusyWeight()) + SumBy(s.pcs, AllocWeight())
  }

  /** Clients free only what they own and never reserve more slots than there are. */
  ghost predicate Disciplined(s: State, e: Event) {
    match e
    case CallAllocate(t) => Reserved(s) < |s.nextFree|
    case CallDeallocate(t, index) => index < |s.holders| && s.holders[index] == Client
    case Go(_, _) => true
  }

  /** No thread sleeps through 2^32 successful operations between its load and its CAS. */
  ghost predicate TagsFresh(s: State) {
    forall t: nat :: t < |s.pcs| && (s.pcs[t].AllocCas? || s.pcs[t].FreeCas?) ==> s.ver < s.pcs[t].ver + HALF
  }

  ghost predicate GoodRun(s: State, es: seq<Event>)
    decreases |es|
  {
    es == [] || (Disciplined(s, es[0]) && TagsFresh(s) && GoodRun(Step(s, es[0]), es[1..]))
  }

  // ----- The inductive invariant -----

  /** Entry i of a chain, NIL past its end. */
  function Nth(free: seq<nat>, i: nat): nat {
    if i < |free| then free[i] else NIL
  }

  /** The links spell out the chain: in range, without repetition, ending in NIL. */
  ghost predicate Linked(free: seq<nat>, nextFree: seq<nat>) {
    && (forall i: nat :: i < |free| ==> free[i] < |nextFree|)
    && (forall i: nat, j: nat :: i < j < |free| ==> free[i] != free[j])
    && (forall i: nat {:trigger nextFree[free[i]]} :: i < |free| ==> nextFree[free[i]] % HALF == Nth(free, i + 1))
  }

  lemma LinkedPop(free: seq<nat>, nextFree: seq<nat>)
    requires Linked(free, nextFree) && free != []
    ensures Linked(free[1..], nextFree)
  {
    var f := free[1..];
    forall i: nat | i < |f| ensures nextFree[f[i]] % HALF == Nth(f, i + 1) { assert f[i] == free[i + 1]; }
  }

  lemma LinkedPush(free: seq<nat>, nextFree: seq<nat>, index: nat)
    requires Linked(free, nextFree) && index < |nextFree| && index !in free && nextFree[index] % HALF == Nth(free, 0)
    ensures Linked([index] + free, nextFree)
  {
    var f := [index] + free;
    forall i: nat | i < |f| ensures nextFree[f[i]] % HALF == Nth(f, i + 1) {
      if i > 0 { assert f[i] == free[i - 1]; }
    }
  }

  lemma LinkedWrite(free: seq<nat>, nextFree: seq<nat>, index: nat, v: nat)
    requires Linked(free, nextFree) && index < |nextFree| && index !in free
    ensures Linked(free, nextFree[index := v])
  {
  }

  ghost predicate ChainOk(s: State) {
    s.head == Head(Nth(s.free, 0), s.ver % HALF) && Linked(s.free, s.nextFree)
  }

  ghost predicate HoldersOk(s: State) {
    && |s.holders| == |s.nextFree|
    && (forall i: nat {:trigger s.holders[i]} {:trigger i in s.free} :: i < |s.holders| ==> (s.holders[i].InFree? <==> i in s.free))
    && (forall i: nat :: i < |s.holders| && s.holders[i].Freeing? ==>
          s.holders[i].t < |s.pcs| && Frees(s.pcs[s.holders[i].t], i))
    && |s.free| + SumBy(s.holders, BusyWeight()) == |s.nextFree|
    && Reserved(s) <= |s.nextFree|
  }

  predicate Frees(pc: Pc, i: nat) {
    (pc.FreeLoad? || pc.FreeWrite? || pc.FreeCas?) && pc.index == i
  }

  ghost predicate Snapshot(s: State, seen: Head, ver: nat, snap: seq<nat>) {
    ver <= s.ver && seen == Head(Nth(snap, 0), ver % HALF) && (ver == s.ver ==> snap == s.free)
  }

  ghost predicate ThreadOk(s: State, t: nat)
    requires t < |s.pcs|
  {
    match s.pcs[t]
    case AllocRead(seen, ver, snap) =>
      Snapshot(s, seen, ver, snap) && snap != [] && snap[0] < |s.nextFree|
    case AllocCas(seen, next, ver, snap) =>
      && Snapshot(s, seen, ver, snap) && snap != [] && snap[0] < |s.nextFree|
      && (ver == s.ver ==> next % HALF == Nth(s.free, 1))
    case OutOfRange => false
    case AllocNull => false
    case FreeLoad(index) => index < |s.holders| && s.holders[index] == Freeing(t)
    case FreeWrite(index, seen, ver, snap) =>
      Snapshot(s, seen, ver, snap) && index < |s.holders| && s.holders[index] == Freeing(t)
    case FreeCas(index, seen, ver, snap) =>
      && Snapshot(s, seen, ver, snap) && index < |s.holders| && s.holders[index] == Freeing(t)
      && index < |s.nextFree| && s.nextFree[index] == seen.index
    case _ => true
  }

  ghost predicate Inv(s: State) {
    && 0 < |s.nextFree| < NIL
    && ChainOk(s) && HoldersOk(s)
    && (forall t: nat {:trigger ThreadOk(s, t)} :: t < |s.pcs| ==> ThreadOk(s, t))
  }

  // ----- Preservation -----

  /** Equal tags taken fewer than 2^32 operations apart are the same version. */
  lemma EqualTagsEqualVersions(v: nat, w: nat)
    requires v % HALF == w % HALF && v <= w < v + HALF
    ensures v == w
  {
    SameCellSamePosition(v, w, HALF);
  }

  lemma CasMatches(s: State, t: nat)
    requires Inv(s) && TagsFresh(s) && t < |s.pcs|
    requires (s.pcs[t].AllocCas? || s.pcs[t].FreeCas?) && s.pcs[t].seen == s.head
    ensures s.pcs[t].ver == s.ver && s.pcs[t].snap == s.free
  {
    assert ThreadOk(s, t);
    EqualTagsEqualVersions(s.pcs[t].ver, s.ver);
  }

  /** The head a successful CAS installs carries the next tag. */
  lemma NextHead(index: nat, ver: nat)
    ensures Halves(index, ver % HALF + 1) == Head(index % HALF, (ver + 1) % HALF)
    ensures index < HALF ==> index % HALF == index
  {
    assert (ver % HALF + 1) % HALF == (ver + 1) % HALF;
  }

  /** A step that changes only the program point of t, from and to points that are equally reserved. */
  lemma LocalStep(s: State, t: nat, pc: Pc)
    requires Inv(s) && t < |s.pcs| && ThreadOk(SetPc(s, t, pc), t)
    requires Allocating(pc) ==> Allocating(s.pcs[t]) || Reserved(s) < |s.nextFree|
    requires forall i: nat :: i < |s.holders| ==> Frees(pc, i) == Frees(s.pcs[t], i)
    ensures Inv(SetPc(s, t, pc))
  {
    var s' := SetPc(s, t, pc);
    SumByUpdate(s.pcs, t, pc, AllocWeight());
    forall u: nat | u < |s'.pcs| ensures ThreadOk(s', u) { assert ThreadOk(s, u); }
  }

  /** While a thread is inside `allocate`, the free chain is not empty. */
  lemma FreeNotEmpty(s: State, t: nat)
    requires Inv(s) && t < |s.pcs| && Allocating(s.pcs[t])
    ensures |s.free| > 0
  {
    SumByUpdate(s.pcs, t, Idle, AllocWeight());
  }

  lemma SmallIndex(i: nat)
    requires i < HALF
    ensures i % HALF == i
  {
  }

  /** A successful CAS makes every other snapshot stale and touches no slot another thread is freeing. */
  lemma OthersAfterCas(s: State, s': State, t: nat, index: nat)
    requires forall u: nat {:trigger ThreadOk(s, u)} :: u < |s.pcs| ==> ThreadOk(s, u)
    requires |s'.pcs| == |s.pcs| && t < |s.pcs| && index < |s.holders| && Ready(s'.pcs[t]) && !s'.pcs[t].AllocNull?
    requires s'.pcs == s.pcs[t := s'.pcs[t]]
    requires s'.ver == s.ver + 1 && s'.nextFree == s.nextFree
    requires |s'.holders| == |s.holders| && s'.holders == s.holders[index := s'.holders[index]]
    requires s.holders[index].Freeing? ==> s.holders[index].t == t
    ensures forall u: nat {:trigger ThreadOk(s', u)} :: u < |s'.pcs| ==> ThreadOk(s', u)
  {
    forall u: nat | u < |s'.pcs| ensures ThreadOk(s', u) { assert ThreadOk(s, u); }
  }

  lemma PopEffect(s: State, t: nat)
    requires 0 < |s.nextFree| == |s.holders| < NIL && t < |s.pcs| && ThreadOk(s, t)
    requires s.pcs[t].AllocCas? && s.pcs[t].seen == s.head && s.pcs[t].ver == s.ver
    ensures
      && s.free != [] && s.free[0] < |s.holders|
      && Act(s, t, false) ==
         s.(head := Head(Nth(s.free, 1), (s.ver + 1) % HALF), free := s.free[1..], ver := s.ver + 1,
            pcs := s.pcs[t := AllocDone(s.free[0])], holders := s.holders[s.free[0] := Client])
  {
    NextHead(s.pcs[t].next, s.ver);
  }

  lemma PopStep(s: State, t: nat)
    requires Inv(s) && t < |s.pcs| && s.pcs[t].AllocCas? && s.pcs[t].seen == s.head && s.pcs[t].ver == s.ver
    ensures Inv(Act(s, t, false)) && Reserved(Act(s, t, false)) == Reserved(s)
  {
    var s' := Act(s, t, false);
    assert ThreadOk(s, t);
    PopEffect(s, t);
    LinkedPop(s.free, s.nextFree);
    PopHolders(s, s', t);
    OthersAfterCas(s, s', t, s.free[0]);
  }

  lemma PopHolders(s: State, s': State, t: nat)
    requires HoldersOk(s) && t < |s.pcs| && Allocating(s.pcs[t]) && s.free != [] && s.free[0] < |s.holders|
    requires forall i: nat :: 0 < i < |s.free| ==> s.free[i] != s.free[0]
    requires s'.free == s.free[1..] && s'.nextFree == s.nextFree && s'.pcs == s.pcs[t := AllocDone(s.free[0])]
    requires s'.holders == s.holders[s.free[0] := Client]
    ensures HoldersOk(s') && Reserved(s') == Reserved(s)
  {
    SumByUpdate(s.pcs, t, AllocDone(s.free[0]), AllocWeight());
    SumByUpdate(s.holders, s.free[0], Client, BusyWeight());
    assert s.free == [s.free[0]] + s'.free;
  }

  lemma PushEffect(s: State, t: nat)
    requires 0 < |s.nextFree| == |s.holders| < NIL && t < |s.pcs| && ThreadOk(s, t)
    requires s.pcs[t].FreeCas? && s.pcs[t].seen == s.head && s.pcs[t].ver == s.ver
    ensures
      var index := s.pcs[t].index;
      && index < |s.holders|
      && Act(s, t, false) ==
         s.(head := Head(index, (s.ver + 1) % HALF), free := [index] + s.free, ver := s.ver + 1,
            pcs := s.pcs[t := FreeDone], holders := s.holders[index := InFree])
  {
    NextHead(s.pcs[t].index, s.ver);
  }

  lemma PushStep(s: State, t: nat)
    requires Inv(s) && TagsFresh(s) && t < |s.pcs| && s.pcs[t].FreeCas? && s.pcs[t].seen == s.head
    ensures Inv(Act(s, t, false))
  {
    var s' := Act(s, t, false);
    CasMatches(s, t);
    assert ThreadOk(s, t);
    PushEffect(s, t);
    assert s.pcs[t].index !in s.free;
    LinkedPush(s.free, s.nextFree, s.pcs[t].index) by { SmallIndex(Nth(s.free, 0)); }
    PushHolders(s, s', t, s.pcs[t].index);
    OthersAfterCas(s, s', t, s.pcs[t].index);
  }

  lemma PushHolders(s: State, s': State, t: nat, index: nat)
    requires HoldersOk(s) && t < |s.pcs| && !Allocating(s.pcs[t]) && index < |s.holders| && s.holders[index] == Freeing(t)
    requires Frees(s.pcs[t], index)
    requires s'.free == [index] + s.free && s'.nextFree == s.nextFree && s'.pcs == s.pcs[t := FreeDone]
    requires s'.holders == s.holders[index := InFree]
    ensures HoldersOk(s')
  {
    SumByUpdate(s.pcs, t, FreeDone, AllocWeight());
    SumByUpdate(s.holders, index, InFree, BusyWeight());
  }

  /** A freeing thread writes a slot that is in no chain. */
  lemma WriteStep(s: State, t: nat)
    requires Inv(s) && t < |s.pcs| && s.pcs[t].FreeWrite?
    ensures Inv(Act(s, t, false))
  {
    var s' := Act(s, t, false);
    assert ThreadOk(s, t);
    SumByUpdate(s.pcs, t, s'.pcs[t], AllocWeight());
    assert s.pcs[t].index !in s.free;
    LinkedWrite(s.free, s.nextFree, s.pcs[t].index, s.pcs[t].seen.index);
    forall u: nat | u < |s'.pcs| ensures ThreadOk(s', u) { assert ThreadOk(s, u); }
  }

  lemma CallFreeStep(s: State, t: nat, index: nat)
    requires Inv(s) && t < |s.pcs| && Ready(s.pcs[t]) && index < |s.holders| && s.holders[index] == Client
    ensures Inv(Step(s, CallDeallocate(t, index)))
  {
    var s' := Step(s, CallDeallocate(t, index));
    SumByUpdate(s.pcs, t, s'.pcs[t], AllocWeight());
    SumByUpdate(s.holders, index, Freeing(t), BusyWeight());
    forall u: nat | u < |s'.pcs| ensures ThreadOk(s', u) { assert ThreadOk(s, u); }
  }

  lemma ReadStep(s: State, t: nat)
    requires Inv(s) && t < |s.pcs| && s.pcs[t].AllocRead?
    ensures Inv(Act(s, t, false))
  {
    assert ThreadOk(s, t);
    LocalStep(s, t, Act(s, t, false).pcs[t]);
  }

  lemma AllocateKeepsInv(s: State, t: nat, weakFails: bool)
    requires Inv(s) && TagsFresh(s) && t < |s.pcs| && Allocating(s.pcs[t])
    ensures Inv(Act(s, t, weakFails))
  {
    assert ThreadOk(s, t);
    FreeNotEmpty(s, t);
    if s.pcs[t].AllocRead? {
      ReadStep(s, t);
    } else if s.pcs[t].AllocCas? && s.pcs[t].seen == s.head && !weakFails {
      CasMatches(s, t);
      PopStep(s, t);
    } else {
      LocalStep(s, t, Act(s, t, weakFails).pcs[t]);
    }
  }

  lemma ActKeepsInv(s: State, t: nat, weakFails: bool)
    requires Inv(s) && TagsFresh(s) && t < |s.pcs|
    ensures Inv(Act(s, t, weakFails))
  {
    if Allocating(s.pcs[t]) {
      AllocateKeepsInv(s, t, weakFails);
    } else {
      assert ThreadOk(s, t);
      match s.pcs[t]
      case FreeLoad(_) => LocalStep(s, t, Act(s, t, weakFails).pcs[t]);
      case FreeWrite(_, _, _, _) => WriteStep(s, t);
      case FreeCas(_, seen, _, _) =>
        if seen == s.head && !weakFails { PushStep(s, t); } else { LocalStep(s, t, Act(s, t, weakFails).pcs[t]); }
      case _ =>
    }
  }

  lemma StepKeepsInv(s: State, e: Event)
    requires Inv(s) && Disciplined(s, e) && TagsFresh(s)
    ensures Inv(Step(s, e))
  {
    if e.t < |s.pcs| {
      match e
      case CallAllocate(t) => if Ready(s.pcs[t]) { LocalStep(s, t, AllocLoad); }
      case CallDeallocate(t, index) => if Ready(s.pcs[t]) { CallFreeStep(s, t, index); }
      case Go(t, weakFails) => ActKeepsInv(s, t, weakFails);
    }
  }

  lemma InitLink(size: nat, i: nat)
    requires i < size < NIL
    ensures (if i == 0 then WORD - 1 else i - 1) % HALF == if i == 0 then NIL else i - 1
  {
    assert (WORD - 1) % HALF == NIL;
    if i > 0 { SmallIndex(i - 1); }
  }

  lemma InitLinked(size: nat, threads: nat)
    requires 0 < size < NIL
    ensures ChainOk(Init(size, threads))
  {
    var s := Init(size, threads);
    forall i: nat {:trigger s.nextFree[s.free[i]]} | i < |s.free| ensures s.nextFree[s.free[i]] % HALF == Nth(s.free, i + 1) {
      assert s.free[i] == size - 1 - i;
      InitLink(size, size - 1 - i);
    }
    SmallIndex(size - 1);
  }

  lemma InitInv(size: nat, threads: nat)
    requires 0 < size < NIL
    ensures Inv(Init(size, threads))
  {
    var s := Init(size, threads);
    InitLinked(size, threads);
    forall i: nat | i < |s.holders| ensures i in s.free { assert s.free[size - 1 - i] == i; }
    SumByZero(s.holders, BusyWeight());
    SumByZero(s.pcs, AllocWeight());
  }

  lemma {:induction false} ExecKeepsInv(s: State, es: seq<Event>)
    requires Inv(s) && GoodRun(s, es)
    ensures Inv(Exec(s, es))
    decreases |es|
  {
    if es != [] {
      StepKeepsInv(s, es[0]);
      ExecKeepsInv(Step(s, es[0]), es[1..]);
    }
  }

  // ----- Main results -----

  /**
   In every good run the free chain is linked without repetition; a slot is in
   the chain, with a client, or being freed by one thread, and the chain holds
   exactly the slots nobody has; no thread ever indexes past `nextFree_`.
   */
  lemma PoolSafety(size: nat, threads: nat, es: seq<Event>)
    requires 0 < size < NIL && GoodRun(Init(size, threads), es)
    ensures
      var s := Exec(Init(size, threads), es);
      && |s.holders| == |s.nextFree| && Linked(s.free, s.nextFree) && s.head.index == Nth(s.free, 0)
      && (forall i: nat :: i < |s.holders| ==> (s.holders[i].InFree? <==> i in s.free))
      && |s.free| + SumBy(s.holders, BusyWeight()) == |s.nextFree|
      && (forall i: nat, t: nat :: i < |s.holders| && t < |s.pcs| && Frees(s.pcs[t], i) ==> s.holders[i] == Freeing(t))
      && (forall t: nat :: t < |s.pcs| ==> !s.pcs[t].OutOfRange?)
  {
    InitInv(size, threads);
    ExecKeepsInv(Init(size, threads), es);
    var s := Exec(Init(size, threads), es);
    forall t: nat | t < |s.pcs| ensures !s.pcs[t].OutOfRange? { assert ThreadOk(s, t); }
    forall i: nat, t: nat | i < |s.holders| && t < |s.pcs| && Frees(s.pcs[t], i) ensures s.holders[i] == Freeing(t) {
      assert ThreadOk(s, t);
    }
  }

  /**
   No ABA: a CAS that succeeds finds the very chain its thread loaded. A successful
   allocation hands out the first free slot to a client, a successful
   deallocation puts its slot in front; no other step changes the chain.
   */
  lemma SuccessfulCas(s: State, t: nat, weakFails: bool)
    requires Inv(s) && TagsFresh(s) && t < |s.pcs|
    ensures
      var s' := Act(s, t, weakFails);
      match s.pcs[t]
      case AllocCas(seen, _, ver, snap) =>
        if s.head == seen && !weakFails then
          ver == s.ver && snap == s.free && s.free != [] && s'.free == s.free[1..] && s'.pcs[t] == AllocDone(s.free[0])
          && s.free[0] < |s.holders| && s.holders[s.free[0]] == InFree && s'.holders == s.holders[s.free[0] := Client]
        else s'.free == s.free && s'.holders == s.holders
      case FreeCas(index, seen, ver, snap) =>
        if s.head == seen && !weakFails then
          ver == s.ver && snap == s.free && s'.free == [index] + s.free && index < |s.holders|
          && s.holders[index] == Freeing(t) && s'.holders == s.holders[index := InFree]
        else s'.free == s.free && s'.holders == s.holders
      case _ => s'.free == s.free && s'.holders == s.holders
  {
    assert ThreadOk(s, t);
    if s.pcs[t].AllocCas? && s.pcs[t].seen == s.head { CasMatches(s, t); PopEffect(s, t); }
    if s.pcs[t].FreeCas? && s.pcs[t].seen == s.head { CasMatches(s, t); PushEffect(s, t); }
  }

  // ----- Answers -----

  /**
   A call ends in one of two ways only: an `allocate` with the first free slot,
   which leaves the chain for this client, or a `deallocate` with its slot put in
   front of the chain. A CAS that fails, lost or spurious, answers nothing.
   */
  lemma AnswerJustified(s: State, t: nat, weakFails: bool)
    requires Inv(s) && TagsFresh(s) && t < |s.pcs| && !Ready(s.pcs[t])
    ensures |Act(s, t, weakFails).pcs| == |s.pcs|
    ensures
      var s' := Act(s, t, weakFails);
      Ready(s'.pcs[t]) ==>
        match s'.pcs[t]
        case AllocDone(i) =>
          && Allocating(s.pcs[t]) && s.free != [] && i == s.free[0] && s'.free == s.free[1..]
          && i < |s.holders| && s.holders[i].InFree? && s'.holders == s.holders[i := Client]
        case FreeDone =>
          && (s.pcs[t].FreeLoad? || s.pcs[t].FreeWrite? || s.pcs[t].FreeCas?)
          && var i := s.pcs[t].index;
             s'.free == [i] + s.free && i < |s.holders| && s.holders[i] == Freeing(t) && s'.holders == s.holders[i := InFree]
        case _ => false
  {
    assert ThreadOk(s, t);
    SuccessfulCas(s, t, weakFails);
  }

  /** A call in flight stays what it is: nothing but its end changes its kind or the slot it frees, and each access leads to the next. */
  lemma CallKeepsKind(s: State, t: nat, weakFails: bool)
    requires Inv(s) && TagsFresh(s) && t < |s.pcs| && |Act(s, t, weakFails).pcs| == |s.pcs|
    ensures
      var pc, pc' := s.pcs[t], Act(s, t, weakFails).pcs[t];
      && (Allocating(pc) ==> Allocating(pc') || pc'.AllocDone?)
      && (forall i: nat :: Frees(pc, i) ==> Frees(pc', i) || pc' == FreeDone)
      && (Ready(pc) ==> pc' == pc)
      && (pc.AllocLoad? ==> pc'.AllocRead?) && (pc.AllocRead? ==> pc'.AllocCas?)
      && (pc.FreeLoad? ==> pc'.FreeWrite?) && (pc.FreeWrite? ==> pc'.FreeCas?)
  {
    assert ThreadOk(s, t);
  }

  /** A call begins whenever its thread is ready; a `deallocate` takes its slot from the client at once. */
  lemma CallBegins(s: State, t: nat, index: nat)
    requires t < |s.pcs| && Ready(s.pcs[t])
    ensures
      var alloc := Step(s, CallAllocate(t));
      |alloc.pcs| == |s.pcs| && Allocating(alloc.pcs[t]) && alloc == s.(pcs := alloc.pcs) && alloc.pcs == s.pcs[t := alloc.pcs[t]]
    ensures index < |s.holders| ==>
      var free := Step(s, CallDeallocate(t, index));
      && |free.pcs| == |s.pcs| && Frees(free.pcs[t], index) && free.pcs == s.pcs[t := free.pcs[t]]
      && free == s.(pcs := free.pcs, holders := s.holders[index := Freeing(t)])
  {
  }

  /**
   A CAS that fails has loaded the present head, so the next round works on the
   present chain; and unless the failure was spurious, another operation has
   succeeded since the load.
   */
  lemma RetryReloads(s: State, t: nat, weakFails: bool)
    requires Inv(s) && t < |s.pcs| && (s.pcs[t].AllocCas? || s.pcs[t].FreeCas?) && (s.pcs[t].seen != s.head || weakFails)
    ensures |Act(s, t, weakFails).pcs| == |s.pcs|
    ensures
      var pc' := Act(s, t, weakFails).pcs[t];
      && (if s.pcs[t].AllocCas? then pc'.AllocRead? else pc'.FreeWrite? && pc'.index == s.pcs[t].index)
      && pc'.seen == Head(Nth(s.free, 0), s.ver % HALF) && pc'.ver == s.ver && pc'.snap == s.free
      && (s.pcs[t].seen != s.head ==> s.pcs[t].ver < s.ver)
  {
    assert ThreadOk(s, t);
  }

  /** Event e is the access at which an `allocate` answers slot i. */
  ghost predicate AnswersSlot(s: State, e: Event, i: nat) {
    && e.Go? && e.t < |s.pcs| && !Ready(s.pcs[e.t])
    && e.t < |Step(s, e).pcs| && Step(s, e).pcs[e.t] == AllocDone(i)
  }

  /** Event e begins a `deallocate` of slot i. */
  predicate ReturnsSlot(s: State, e: Event, i: nat) {
    e.CallDeallocate? && e.index == i && e.t < |s.pcs| && Ready(s.pcs[e.t])
  }

  ghost function AnswerCount(s: State, es: seq<Event>, i: nat): nat
    decreases |es|
  {
    if es == [] then 0 else (if AnswersSlot(s, es[0], i) then 1 else 0) + AnswerCount(Step(s, es[0]), es[1..], i)
  }

  ghost function ReturnCount(s: State, es: seq<Event>, i: nat): nat
    decreases |es|
  {
    if es == [] then 0 else (if ReturnsSlot(s, es[0], i) then 1 else 0) + ReturnCount(Step(s, es[0]), es[1..], i)
  }

  /** A slot comes to a client exactly by an answer and leaves it exactly by a deallocation. */
  lemma ClientChanges(s: State, e: Event, i: nat)
    requires Inv(s) && Disciplined(s, e) && TagsFresh(s) && i < |s.holders|
    ensures |Step(s, e).holders| == |s.holders|
    ensures AnswersSlot(s, e, i) ==> s.holders[i].InFree? && Step(s, e).holders[i] == Client
    ensures ReturnsSlot(s, e, i) ==> s.holders[i] == Client && Step(s, e).holders[i] != Client
    ensures !AnswersSlot(s, e, i) && !ReturnsSlot(s, e, i) ==> (Step(s, e).holders[i] == Client <==> s.holders[i] == Client)
  {
    if e.Go? && e.t < |s.pcs| {
      SuccessfulCas(s, e.t, e.weakFails);
      CallKeepsKind(s, e.t, e.weakFails);
      if !Ready(s.pcs[e.t]) { AnswerJustified(s, e.t, e.weakFails); }
    }
  }

  lemma {:induction false} AnswersBalance(s: State, es: seq<Event>, i: nat)
    requires Inv(s) && GoodRun(s, es) && i < |s.holders|
    ensures |Exec(s, es).holders| == |s.holders|
    ensures AnswerCount(s, es, i) - ReturnCount(s, es, i) ==
      (if Exec(s, es).holders[i] == Client then 1 else 0) - (if s.holders[i] == Client then 1 else 0)
    decreases |es|
  {
    if es != [] {
      ClientChanges(s, es[0], i);
      StepKeepsInv(s, es[0]);
      AnswersBalance(Step(s, es[0]), es[1..], i);
    }
  }

  /**
   In every good run slot i was answered as often as it was given back, or once
   more while a client has it; so it never goes to two clients, and while it is
   in the chain nobody has it.
   */
  lemma SlotAnsweredOnce(size: nat, threads: nat, es: seq<Event>, i: nat)
    requires 0 < size < NIL && GoodRun(Init(size, threads), es) && i < size
    ensures
      var s := Exec(Init(size, threads), es);
      var answers, freed := AnswerCount(Init(size, threads), es, i), ReturnCount(Init(size, threads), es, i);
      && freed <= answers <= freed + 1
      && (answers == freed + 1 <==> i < |s.holders| && s.holders[i] == Client)
      && (answers == freed + 1 ==> i !in s.free)
  {
    InitInv(size, threads);
    AnswersBalance(Init(size, threads), es, i);
    ExecKeepsInv(Init(size, threads), es);
  }

  // ----- Whole operations -----

  lemma {:induction false} ExecAppend(s: State, a: seq<Event>, b: seq<Event>)
    ensures Exec(s, a + b) == Exec(Exec(s, a), b)
    ensures GoodRun(s, a) && GoodRun(Exec(s, a), b) ==> GoodRun(s, a + b)
    decreases |a|
  {
    if a == [] {
      assert a + b == b;
    } else {
      assert (a + b)[0] == a[0] && (a + b)[1..] == a[1..] + b;
      ExecAppend(Step(s, a[0]), a[1..], b);
    }
  }

  /** A good run from s to s'. */
  ghost predicate Leads(s: State, es: seq<Event>, s': State) {
    GoodRun(s, es) && Exec(s, es) == s'
  }

  lemma LeadsBy(s: State, e: Event)
    requires Disciplined(s, e) && TagsFresh(s)
    ensures Leads(s, [e], Step(s, e))
  {
    assert [e][1..] == [];
    assert Exec(Step(s, e), []) == Step(s, e) && GoodRun(Step(s, e), []);
  }

  lemma LeadsOn(s: State, a: seq<Event>, s1: State, e: Event) returns (es: seq<Event>)
    requires Leads(s, a, s1) && Disciplined(s1, e) && TagsFresh(s1)
    ensures Leads(s, es, Step(s1, e))
  {
    LeadsBy(s1, e);
    ExecAppend(s, a, [e]);
    es := a + [e];
  }

  /** The chain after its first slot was handed to thread t. */
  function Popped(s: State, t: nat): State
    requires t < |s.pcs| && s.free != [] && s.free[0] < |s.holders|
  {
    s.(head := Head(Nth(s.free, 1), (s.ver + 1) % HALF), free := s.free[1..], ver := s.ver + 1,
       pcs := s.pcs[t := AllocDone(s.free[0])], holders := s.holders[s.free[0] := Client])
  }

  /** Thread t about to CAS with what is in memory now. */
  function Loaded(s: State, t: nat): State
    requires t < |s.pcs| && s.free != [] && s.free[0] < |s.nextFree|
  {
    SetPc(s, t, AllocCas(s.head, s.nextFree[s.free[0]], s.ver, s.free))
  }

  lemma LoadedOk(s: State, t: nat)
    requires Inv(s) && t < |s.pcs| && Allocating(s.pcs[t])
    ensures s.free != [] && s.free[0] < |s.nextFree|
    ensures Inv(Loaded(s, t)) && Reserved(Loaded(s, t)) == Reserved(s)
  {
    FreeNotEmpty(s, t);
    assert s.free[0] < |s.nextFree|;
    assert ThreadOk(Loaded(s, t), t);
    LocalStep(s, t, Loaded(s, t).pcs[t]);
    SumByUpdate(s.pcs, t, Loaded(s, t).pcs[t], AllocWeight());
  }

  lemma CasLoaded(s: State, t: nat)
    requires Inv(s) && t < |s.pcs| && Allocating(s.pcs[t])
    ensures s.free != [] && s.free[0] < |s.nextFree| == |s.holders|
    ensures Step(Loaded(s, t), Go(t, false)) == Popped(s, t)
    ensures Inv(Popped(s, t)) && Reserved(Popped(s, t)) == Reserved(s)
  {
    LoadedOk(s, t);
    var s2 := Loaded(s, t);
    assert ThreadOk(s2, t);
    PopEffect(s2, t);
    PopStep(s2, t);
    assert s2.pcs[t := AllocDone(s.free[0])] == s.pcs[t := AllocDone(s.free[0])];
  }

  /** An undisturbed call up to its CAS. */
  lemma CallAndLoad(s: State, t: nat) returns (es: seq<Event>)
    requires Inv(s) && TagsFresh(s) && t < |s.pcs| && Ready(s.pcs[t]) && Reserved(s) < |s.nextFree|
    ensures Inv(SetPc(s, t, AllocLoad)) && Reserved(SetPc(s, t, AllocLoad)) == Reserved(s) + 1
    ensures s.free != [] && s.free[0] < |s.nextFree|
    ensures Leads(s, es, Loaded(SetPc(s, t, AllocLoad), t)) && TagsFresh(Loaded(SetPc(s, t, AllocLoad), t))
  {
    var s1 := SetPc(s, t, AllocLoad);
    CallAllocateOk(s, t);
    LoadedOk(s1, t);
    LoadedFrom(s1, t);
    LeadsBy(s, CallAllocate(t));
    es := LeadsOn(s, [CallAllocate(t)], s1, Go(t, false));
    es := LeadsOn(s, es, Step(s1, Go(t, false)), Go(t, false));
  }

  /** An undisturbed `allocate` hands out the first free slot. */
  lemma WholeAllocate(s: State, t: nat) returns (es: seq<Event>)
    requires Inv(s) && TagsFresh(s) && t < |s.pcs| && Ready(s.pcs[t]) && Reserved(s) < |s.nextFree|
    ensures s.free != [] && s.free[0] < |s.nextFree| == |s.holders|
    ensures Leads(s, es, Popped(s, t)) && Inv(Popped(s, t)) && Reserved(Popped(s, t)) == Reserved(s) + 1
  {
    var s1 := SetPc(s, t, AllocLoad);
    es := CallAndLoad(s, t);
    CasLoaded(s1, t);
    assert Popped(s1, t) == Popped(s, t) by { assert s1.pcs[t := AllocDone(s.free[0])] == s.pcs[t := AllocDone(s.free[0])]; }
    es := LeadsOn(s, es, Loaded(s1, t), Go(t, false));
  }

  lemma CallAllocateOk(s: State, t: nat)
    requires Inv(s) && t < |s.pcs| && Ready(s.pcs[t]) && Reserved(s) < |s.nextFree|
    ensures Inv(SetPc(s, t, AllocLoad)) && Reserved(SetPc(s, t, AllocLoad)) == Reserved(s) + 1
    ensures TagsFresh(s) ==> TagsFresh(SetPc(s, t, AllocLoad))
  {
    LocalStep(s, t, AllocLoad);
    SumByUpdate(s.pcs, t, AllocLoad, AllocWeight());
  }

  lemma LoadedFrom(s: State, t: nat)
    requires Inv(s) && t < |s.pcs| && s.pcs[t] == AllocLoad && s.free != [] && s.free[0] < |s.nextFree|
    ensures Step(Step(s, Go(t, false)), Go(t, false)) == Loaded(s, t)
    ensures TagsFresh(s) ==> TagsFresh(Step(s, Go(t, false))) && TagsFresh(Loaded(s, t))
  {
    assert s.head.index == s.free[0];
    var s1 := SetPc(s, t, AllocRead(s.head, s.ver, s.free));
    assert Step(s, Go(t, false)) == s1;
    assert s1.pcs[t := Loaded(s, t).pcs[t]] == Loaded(s, t).pcs;
  }

  /** The chain after thread t put a slot in front. */
  function Pushed(s: State, t: nat, index: nat): State
    requires t < |s.pcs| && index < |s.nextFree| == |s.holders|
  {
    s.(head := Head(index, (s.ver + 1) % HALF), nextFree := s.nextFree[index := s.head.index], free := [index] + s.free,
       ver := s.ver + 1, pcs := s.pcs[t := FreeDone], holders := s.holders[index := InFree])
  }

  function Written(s: State, t: nat, index: nat): State
    requires t < |s.pcs| && index < |s.nextFree|
  {
    SetPc(s, t, FreeCas(index, s.head, s.ver, s.free)).(nextFree := s.nextFree[index := s.head.index])
  }

  lemma WrittenFrom(s: State, t: nat, index: nat)
    requires t < |s.pcs| && s.pcs[t] == FreeLoad(index) && index < |s.nextFree| == |s.holders| < NIL
    requires s.head.tag == s.ver % HALF
    ensures Step(Step(s, Go(t, false)), Go(t, false)) == Written(s, t, index)
    ensures Step(Written(s, t, index), Go(t, false)) == Pushed(s, t, index)
    ensures TagsFresh(s) ==> TagsFresh(Step(s, Go(t, false))) && TagsFresh(Written(s, t, index))
  {
    var s1, s2 := SetPc(s, t, FreeWrite(index, s.head, s.ver, s.free)), Written(s, t, index);
    assert Step(s, Go(t, false)) == s1;
    assert s1.pcs[t := s2.pcs[t]] == s2.pcs;
    NextHead(index, s.ver);
    assert s2.pcs[t := FreeDone] == s.pcs[t := FreeDone];
  }

  lemma DeallocateLeads(s: State, t: nat, index: nat) returns (es: seq<Event>)
    requires Inv(s) && TagsFresh(s) && t < |s.pcs| && Ready(s.pcs[t]) && index < |s.holders| && s.holders[index] == Client
    ensures index < |s.nextFree| == |s.holders| && Leads(s, es, Pushed(s, t, index))
  {
    var call := CallDeallocate(t, index);
    var s1 := Step(s, call);
    WrittenFrom(s1, t, index);
    assert Pushed(s1, t, index) == Pushed(s, t, index) by {
      assert s1.pcs[t := FreeDone] == s.pcs[t := FreeDone];
      assert s1.holders[index := InFree] == s.holders[index := InFree];
    }
    LeadsBy(s, call);
    es := LeadsOn(s, [call], s1, Go(t, false));
    es := LeadsOn(s, es, Step(s1, Go(t, false)), Go(t, false));
    es := LeadsOn(s, es, Written(s1, t, index), Go(t, false));
  }

  /** An undisturbed `deallocate` puts an owned slot in front of the chain. */
  lemma WholeDeallocate(s: State, t: nat, index: nat) returns (es: seq<Event>)
    requires Inv(s) && TagsFresh(s) && t < |s.pcs| && Ready(s.pcs[t]) && index < |s.holders| && s.holders[index] == Client
    ensures index < |s.nextFree| == |s.holders|
    ensures Leads(s, es, Pushed(s, t, index)) && Inv(Pushed(s, t, index)) && Reserved(Pushed(s, t, index)) == Reserved(s) - 1
  {
    es := DeallocateLeads(s, t, index);
    ExecKeepsInv(s, es);
    SumByUpdate(s.pcs, t, FreeDone, AllocWeight());
    SumByUpdate(s.holders, index, InFree, BusyWeight());
  }

  // ----- The tag window -----

  lemma SameTagIff(v: nat, w: nat)
    ensures v % HALF == w % HALF <==> (w - v) % HALF == 0
  {
    var k := w / HALF - v / HALF;
    assert w - v == k * HALF + (w % HALF - v % HALF);
    if v % HALF == w % HALF {
      SmallMultiple((w - v) / HALF - k, HALF);
    } else if (w - v) % HALF == 0 {
      assert w % HALF - v % HALF == ((w - v) / HALF - k) * HALF;
      SmallMultiple((w - v) / HALF - k, HALF);
    }
  }

  /** A CAS finds its head exactly when the first slot is the same and the versions agree modulo 2^32. */
  lemma CasFindsHeadIff(s: State, t: nat)
    requires Inv(s) && t < |s.pcs| && (s.pcs[t].AllocCas? || s.pcs[t].FreeCas?)
    ensures s.pcs[t].seen == s.head <==>
      Nth(s.pcs[t].snap, 0) == Nth(s.free, 0) && (s.ver - s.pcs[t].ver) % HALF == 0
  {
    assert ThreadOk(s, t);
    SameTagIff(s.pcs[t].ver, s.ver);
  }

  /** An allocation whose CAS succeeds keeps the chain exactly when it installs the successor of the present head. */
  lemma PopKeepsChainIff(s: State, t: nat)
    requires Inv(s) && t < |s.pcs| && s.pcs[t].AllocCas? && s.pcs[t].seen == s.head
    ensures ChainOk(Act(s, t, false)) <==> s.pcs[t].next % HALF == Nth(s.free, 1)
  {
    assert ThreadOk(s, t);
    NextHead(s.pcs[t].next, s.ver);
    assert s.free != [];
    LinkedPop(s.free, s.nextFree);
  }

  lemma LeadsTo(s: State, a: seq<Event>, s1: State, b: seq<Event>, s2: State) returns (es: seq<Event>)
    requires Leads(s, a, s1) && Leads(s1, b, s2)
    ensures Leads(s, es, s2)
  {
    ExecAppend(s, a, b);
    es := a + b;
  }

  /**
   Four slots, two threads: thread 0 sleeps before the CAS of an allocation that
   loaded the untouched chain, thread 1 is between calls, v operations later.
   */
  ghost predicate Sleeping(s: State, v: nat, free: seq<nat>) {
    && Inv(s) && |s.nextFree| == 4 && |s.pcs| == 2
    && s.pcs[0] == AllocCas(Head(3, 0), 2, 0, [3, 2, 1, 0]) && Ready(s.pcs[1])
    && s.ver == v && s.free == free && Reserved(s) + |free| == 5
  }

  lemma SleeperStart()
    ensures var s := Init(4, 2);
      && s.free == [3, 2, 1, 0] && s.head == Head(3, 0) && s.nextFree[3] == 2 && |s.pcs| == 2 && s.ver == 0
      && Ready(s.pcs[0]) && Ready(s.pcs[1]) && |s.nextFree| == 4
  {
    var s := Init(4, 2);
    assert |s.free| == 4 && s.free[0] == 3 && s.free[1] == 2 && s.free[2] == 1 && s.free[3] == 0;
  }

  lemma EmptyReservation(size: nat, threads: nat)
    requires 0 < size
    ensures Reserved(Init(size, threads)) == 0 && TagsFresh(Init(size, threads))
  {
    SumByZero(Init(size, threads).holders, BusyWeight());
    SumByZero(Init(size, threads).pcs, AllocWeight());
  }

  lemma SleeperLoadsFrom(s0: State) returns (es: seq<Event>, s: State)
    requires Inv(s0) && TagsFresh(s0) && Reserved(s0) == 0 && |s0.pcs| == 2 && Ready(s0.pcs[0]) && Ready(s0.pcs[1])
    requires s0.free == [3, 2, 1, 0] && s0.head == Head(3, 0) && |s0.nextFree| == 4 && s0.nextFree[3] == 2 && s0.ver == 0
    ensures Leads(s0, es, s) && Sleeping(s, 0, [3, 2, 1, 0])
  {
    es := CallAndLoad(s0, 0);
    var s1 := SetPc(s0, 0, AllocLoad);
    LoadedOk(s1, 0);
    s := Loaded(s1, 0);
  }

  lemma SleeperLoads() returns (es: seq<Event>, s: State)
    ensures Leads(Init(4, 2), es, s) && Sleeping(s, 0, [3, 2, 1, 0])
  {
    InitInv(4, 2);
    EmptyReservation(4, 2);
    SleeperStart();
    es, s := SleeperLoadsFrom(Init(4, 2));
  }

  lemma SleeperOutwaitsAllocate(s: State, v: nat, free: seq<nat>) returns (es: seq<Event>, s': State)
    requires Sleeping(s, v, free) && v < HALF && |free| >= 2
    ensures Leads(s, es, s') && Sleeping(s', v + 1, free[1..])
    ensures free[0] < |s'.holders| && s'.holders[free[0]] == Client
  {
    es := WholeAllocate(s, 1);
    s' := Popped(s, 1);
  }

  lemma SleeperOutwaitsFree(s: State, v: nat, free: seq<nat>, i: nat) returns (es: seq<Event>, s': State)
    requires Sleeping(s, v, free) && v < HALF && i < |s.holders| && s.holders[i] == Client
    ensures Leads(s, es, s') && Sleeping(s', v + 1, [i] + free)
  {
    es := WholeDeallocate(s, 1, i);
    s' := Pushed(s, 1, i);
  }

  /** k rounds of allocating slot 3 and freeing it again. */
  lemma {:induction false} SleeperRounds(s: State, v: nat, k: nat) returns (es: seq<Event>, s': State)
    requires Sleeping(s, v, [3, 0]) && v + 2 * k <= HALF
    ensures Leads(s, es, s') && Sleeping(s', v + 2 * k, [3, 0])
    decreases k
  {
    if k == 0 {
      es, s' := [], s;
    } else {
      var a, s1 := SleeperOutwaitsAllocate(s, v, [3, 0]);
      assert [3, 0][1..] == [0];
      var b, s2 := SleeperOutwaitsFree(s1, v + 1, [0], 3);
      assert [3] + [0] == [3, 0];
      var c, s3 := SleeperRounds(s2, v + 2, k - 1);
      es := LeadsTo(s, a, s1, b, s2);
      es := LeadsTo(s, es, s2, c, s3);
      s' := s3;
    }
  }

  /** After exactly 2^32 operations the sleeper's tag is back. */
  lemma SleeperTagReturns() returns (es: seq<Event>, s: State)
    ensures Leads(Init(4, 2), es, s) && Sleeping(s, HALF, [3, 0])
  {
    var s0 := Init(4, 2);
    var a, s1 := SleeperLoads();
    var b, s2 := SleeperOutwaitsAllocate(s1, 0, [3, 2, 1, 0]);
    assert [3, 2, 1, 0][1..] == [2, 1, 0];
    var c, s3 := SleeperOutwaitsAllocate(s2, 1, [2, 1, 0]);
    assert [2, 1, 0][1..] == [1, 0];
    var d, s4 := SleeperOutwaitsAllocate(s3, 2, [1, 0]);
    assert [1, 0][1..] == [0];
    SleeperOwner(s4, 3, [0], 3);
    var e, s5 := SleeperOutwaitsFree(s4, 3, [0], 3);
    assert [3] + [0] == [3, 0];
    var f, s6 := SleeperRounds(s5, 4, HALF / 2 - 2);
    es := LeadsTo(s0, a, s1, b, s2);
    es := LeadsTo(s0, es, s2, c, s3);
    es := LeadsTo(s0, es, s3, d, s4);
    es := LeadsTo(s0, es, s4, e, s5);
    es := LeadsTo(s0, es, s5, f, s6);
    s := s6;
  }

  /** While thread 1 is between calls, every slot outside the chain is a client's. */
  lemma SleeperOwner(s: State, v: nat, free: seq<nat>, i: nat)
    requires Sleeping(s, v, free) && i < 4 && i !in free
    ensures i < |s.holders| && s.holders[i] == Client
  {
    assert !s.holders[i].InFree?;
  }

  /**
   The tag window cannot be widened: a run from the constructor in which clients
   obey all rules and thread 0 sleeps through exactly 2^32 operations. Its CAS then
   succeeds on a chain that changed and puts slot 2, which a client owns, in front.
   */
  lemma TagWindowIsTight() returns (es: seq<Event>)
    ensures GoodRun(Init(4, 2), es)
    ensures
      var s := Exec(Init(4, 2), es);
      && |s.pcs| == 2 && s.pcs[0].AllocCas? && s.ver == s.pcs[0].ver + HALF && s.pcs[0].snap != s.free
      && var s' := Act(s, 0, false);
         s'.pcs[0] == AllocDone(3) && !ChainOk(s') && s'.head.index == 2 && |s'.holders| == 4 && s'.holders[2] == Client
  {
    var s;
    es, s := SleeperTagReturns();
    CasFindsHeadIff(s, 0);
    PopKeepsChainIff(s, 0);
    SleeperOwner(s, HALF, [3, 0], 2);
  }

  // ----- Exhaustion -----

  /**
   Undisturbed, an allocation that loads the head while the chain is empty reads
   past the end of `nextFree_` instead of returning null, and otherwise it does not.
   */
  lemma ReadPastEndIffExhausted(s: State, t: nat)
    requires Inv(s) && t < |s.pcs| && Ready(s.pcs[t])
    ensures
      var s' := Step(Step(Step(s, CallAllocate(t)), Go(t, false)), Go(t, false));
      (s'.pcs[t].OutOfRange? <==> s.free == []) && !s'.pcs[t].AllocNull?
  {
    if s.free != [] { assert s.free[0] < |s.nextFree|; }
  }

  ghost predicate ReadsPastEnd(s: State) {
    exists t: nat :: t < |s.pcs| && s.pcs[t].OutOfRange?
  }

  /** Accesses of calls already begun: no new call. */
  ghost predicate OnlyGo(es: seq<Event>) {
    forall i: nat :: i < |es| ==> es[i].Go?
  }

  predicate Active(pc: Pc) {
    !Ready(pc) && !pc.OutOfRange?
  }

  ghost function ActiveWeight(): Pc -> nat {
    (pc: Pc) => if Active(pc) then 1 else 0
  }

  predicate HasSnapshot(pc: Pc) {
    pc.AllocRead? || pc.AllocCas? || pc.FreeWrite? || pc.FreeCas?
  }

  /** Even if all calls in flight complete, no snapshot becomes 2^32 operations old. */
  ghost predicate Recent(s: State) {
    var pending := SumBy(s.pcs, ActiveWeight());
    && pending < HALF
    && (forall t: nat {:trigger HasSnapshot(s.pcs[t])} :: t < |s.pcs| && HasSnapshot(s.pcs[t]) ==> s.ver + pending < s.pcs[t].ver + HALF)
  }

  lemma RecentIsFresh(s: State)
    requires Recent(s)
    ensures TagsFresh(s)
  {
    forall t: nat | t < |s.pcs| && (s.pcs[t].AllocCas? || s.pcs[t].FreeCas?) ensures s.ver < s.pcs[t].ver + HALF {
      assert HasSnapshot(s.pcs[t]);
    }
  }

  /** A version more costs a call in flight; a snapshot is as old as before or new. */
  lemma ActBudget(s: State, t: nat, weakFails: bool)
    requires t < |s.pcs|
    ensures var s' := Act(s, t, weakFails);
      && |s'.pcs| == |s.pcs| && s'.pcs == s.pcs[t := s'.pcs[t]]
      && s'.ver + ActiveWeight()(s'.pcs[t]) <= s.ver + ActiveWeight()(s.pcs[t]) && s.ver <= s'.ver
      && (HasSnapshot(s'.pcs[t]) ==>
            s'.ver == s.ver && (s'.pcs[t].ver == s.ver || (HasSnapshot(s.pcs[t]) && s'.pcs[t].ver == s.pcs[t].ver)))
  {
  }

  lemma ActKeepsRecent(s: State, t: nat, weakFails: bool)
    requires Recent(s) && t < |s.pcs|
    ensures Recent(Act(s, t, weakFails))
  {
    var s' := Act(s, t, weakFails);
    ActBudget(s, t, weakFails);
    SumByUpdate(s.pcs, t, s'.pcs[t], ActiveWeight());
    forall u: nat {:trigger HasSnapshot(s'.pcs[u])} | u < |s'.pcs| && HasSnapshot(s'.pcs[u])
      ensures s'.ver + SumBy(s'.pcs, ActiveWeight()) < s'.pcs[u].ver + HALF
    {
      assert HasSnapshot(s.pcs[u]) ==> s.ver + SumBy(s.pcs, ActiveWeight()) < s.pcs[u].ver + HALF;
    }
  }

  /** Calls in flight never read past the end as long as the reservation rule was obeyed. */
  lemma {:induction false} GoKeepsInv(s: State, es: seq<Event>)
    requires Inv(s) && Recent(s) && OnlyGo(es)
    ensures Inv(Exec(s, es)) && !ReadsPastEnd(Exec(s, es))
    decreases |es|
  {
    if es == [] {
      forall t: nat | t < |s.pcs| ensures !s.pcs[t].OutOfRange? { assert ThreadOk(s, t); }
    } else {
      RecentIsFresh(s);
      if es[0].t < |s.pcs| {
        ActKeepsInv(s, es[0].t, es[0].weakFails);
        ActKeepsRecent(s, es[0].t, es[0].weakFails);
      }
      GoKeepsInv(Step(s, es[0]), es[1..]);
    }
  }

  /** es consists of accesses of threads other than t. */
  ghost predicate Without(es: seq<Event>, t: nat) {
    forall i: nat :: i < |es| ==> es[i].Go? && es[i].t != t
  }

  /** The other threads do not see where t stands. */
  lemma {:induction false} ExecFrame(s: State, es: seq<Event>, t: nat, pc: Pc)
    requires t < |s.pcs| && Without(es, t)
    ensures |Exec(s, es).pcs| == |s.pcs| && Exec(s, es).pcs[t] == s.pcs[t]
    ensures Exec(SetPc(s, t, pc), es) == SetPc(Exec(s, es), t, pc)
    decreases |es|
  {
    if es != [] {
      var u := es[0].t;
      StepFrame(s, es[0], t, pc);
      ExecFrame(Step(s, es[0]), es[1..], t, pc);
    }
  }

  lemma SwapPcs(s: State, t: nat, pc: Pc, u: nat, x: Pc)
    requires t < |s.pcs| && u < |s.pcs| && t != u
    ensures SetPc(SetPc(s, t, pc), u, x) == SetPc(SetPc(s, u, x), t, pc)
  {
    assert s.pcs[t := pc][u := x] == s.pcs[u := x][t := pc];
  }

  lemma AllocateFrame(s: State, u: nat, weakFails: bool, t: nat, pc: Pc)
    requires t < |s.pcs| && u < |s.pcs| && u != t && Allocating(s.pcs[u])
    ensures Act(SetPc(s, t, pc), u, weakFails) == SetPc(Act(s, u, weakFails), t, pc)
  {
    SwapPcs(s, t, pc, u, Act(s, u, weakFails).pcs[u]);
  }

  lemma FreeFrame(s: State, u: nat, weakFails: bool, t: nat, pc: Pc)
    requires t < |s.pcs| && u < |s.pcs| && u != t && !Allocating(s.pcs[u])
    ensures Act(SetPc(s, t, pc), u, weakFails) == SetPc(Act(s, u, weakFails), t, pc)
  {
    SwapPcs(s, t, pc, u, Act(s, u, weakFails).pcs[u]);
  }

  lemma StepFrame(s: State, e: Event, t: nat, pc: Pc)
    requires t < |s.pcs| && e.Go? && e.t != t
    ensures |Step(s, e).pcs| == |s.pcs| && Step(s, e).pcs[t] == s.pcs[t]
    ensures Step(SetPc(s, t, pc), e) == SetPc(Step(s, e), t, pc)
  {
    if e.t < |s.pcs| {
      ActBudget(s, e.t, e.weakFails);
      if Allocating(s.pcs[e.t]) { AllocateFrame(s, e.t, e.weakFails, t, pc); } else { FreeFrame(s, e.t, e.weakFails, t, pc); }
    }
  }

  /** Two accesses, a failed CAS included, and any allocation in flight has loaded the present head. */
  lemma FinishAllocate(s: State, u: nat) returns (es: seq<Event>)
    requires Inv(s) && u < |s.pcs| && Allocating(s.pcs[u])
    ensures forall i: nat :: i < |es| ==> es[i].Go? && es[i].t == u
    ensures s.free != [] && s.free[0] < |s.nextFree| == |s.holders|
    ensures Exec(s, es) == Popped(s, u) && Inv(Popped(s, u)) && Reserved(Popped(s, u)) == Reserved(s)
  {
    CasLoaded(s, u);
    var go := Go(u, false);
    var s1 := SetPc(s, u, AllocRead(s.head, s.ver, s.free));
    var a := ToRead(s, u);
    assert Step(s1, go) == Loaded(s, u) by { assert s1.pcs[u := Loaded(s, u).pcs[u]] == Loaded(s, u).pcs; }
    es := a + [go, go];
    ExecAppend(s, a, [go, go]);
    ExecPair(s1, go, go);
  }

  lemma ExecPair(s: State, d: Event, e: Event)
    ensures Exec(s, [d, e]) == Step(Step(s, d), e)
  {
    assert [d, e][1..] == [e] && [e][1..] == [];
    assert Exec(Step(Step(s, d), e), []) == Step(Step(s, d), e);
  }

  lemma ToRead(s: State, u: nat) returns (es: seq<Event>)
    requires Inv(s) && u < |s.pcs| && Allocating(s.pcs[u])
    ensures forall i: nat :: i < |es| ==> es[i].Go? && es[i].t == u
    ensures Exec(s, es) == SetPc(s, u, AllocRead(s.head, s.ver, s.free))
  {
    var s1 := SetPc(s, u, AllocRead(s.head, s.ver, s.free));
    assert ThreadOk(s, u);
    if s.pcs[u].AllocRead? {
      var s2 := Step(s, Go(u, false));
      assert s2.pcs[u := s1.pcs[u]] == s1.pcs;
      es := [Go(u, false), Go(u, true)];
      ExecPair(s, Go(u, false), Go(u, true));
    } else {
      es := [Go(u, true)];
      assert es[1..] == [] && Exec(s1, []) == s1;
    }
  }

  lemma {:induction false} SomeAllocating(pcs: seq<Pc>) returns (u: nat)
    requires SumBy(pcs, AllocWeight()) > 0
    ensures u < |pcs| && Allocating(pcs[u])
  {
    if Allocating(pcs[0]) {
      u := 0;
    } else {
      var v := SomeAllocating(pcs[1..]);
      u := v + 1;
    }
  }

  /** When as many threads allocate as slots are free, they can take them all. */
  lemma {:induction false} DrainChain(s: State, t: nat) returns (es: seq<Event>)
    requires Inv(s) && t < |s.pcs| && Ready(s.pcs[t]) && Reserved(s) == |s.nextFree|
    ensures Without(es, t) && Inv(Exec(s, es)) && Exec(s, es).free == []
    decreases |s.free|
  {
    if s.free == [] {
      es := [];
    } else {
      var u := SomeAllocating(s.pcs);
      var a := FinishAllocate(s, u);
      var b := DrainChain(Popped(s, u), t);
      ExecAppend(s, a, b);
      es := a + b;
    }
  }

  /** An allocation begun on a fully reserved pool can be driven past the end. */
  lemma Overdraw(s: State, t: nat) returns (es: seq<Event>)
    requires Inv(s) && t < |s.pcs| && Ready(s.pcs[t]) && Reserved(s) == |s.nextFree|
    ensures OnlyGo(es) && ReadsPastEnd(Exec(Step(s, CallAllocate(t)), es))
  {
    var go := Go(t, false);
    var a := DrainChain(s, t);
    ExecFrame(s, a, t, AllocLoad);
    var s1 := Exec(s, a);
    var s2 := SetPc(s1, t, AllocLoad);
    ExecAppend(Step(s, CallAllocate(t)), a, [go, go]);
    ExecPair(s2, go, go);
    var s3 := Step(Step(s2, go), go);
    assert s1.head.index == NIL && s3.pcs[t] == OutOfRange;
    es := a + [go, go];
  }

  /** Calls in flight can reach a read past the end. */
  ghost predicate Doomed(s: State) {
    exists es :: OnlyGo(es) && ReadsPastEnd(Exec(s, es))
  }

  /**
   Whatever the interleaving: beginning an allocation makes a read past the end
   reachable exactly when held slots and running allocations already use up the pool.
   */
  lemma DoomedIffReserved(s: State, t: nat)
    requires Inv(s) && t < |s.pcs| && Ready(s.pcs[t]) && Recent(Step(s, CallAllocate(t)))
    ensures Doomed(Step(s, CallAllocate(t))) <==> Reserved(s) == |s.nextFree|
  {
    var s1 := Step(s, CallAllocate(t));
    if Reserved(s) == |s.nextFree| {
      var es := Overdraw(s, t);
    } else {
      CallAllocateOk(s, t);
      forall es | OnlyGo(es) ensures !ReadsPastEnd(Exec(s1, es)) { GoKeepsInv(s1, es); }
    }
  }

  /** A call of `allocate` on a fully reserved pool. */
  ghost predicate Overdraft(s: State, e: Event) {
    e.CallAllocate? && e.t < |s.pcs| && Ready(s.pcs[e.t]) && Reserved(s) == |s.nextFree|
  }

  /** Clients free only what they own, and no snapshot can outlive its tag; allocations are not restricted. */
  ghost predicate OwnedRun(s: State, es: seq<Event>)
    decreases |es|
  {
    && Recent(s)
    && (es != [] ==>
          && (es[0].CallDeallocate? ==> es[0].index < |s.holders| && s.holders[es[0].index] == Client)
          && OwnedRun(Step(s, es[0]), es[1..]))
  }

  /** Some call of the run overdraws the pool. */
  ghost predicate Overdrawn(s: State, es: seq<Event>)
    decreases |es|
  {
    es != [] && (Overdraft(s, es[0]) || Overdrawn(Step(s, es[0]), es[1..]))
  }

  /** At some point of the run the calls in flight can reach a read past the end. */
  ghost predicate EverDoomed(s: State, es: seq<Event>)
    decreases |es|
  {
    Doomed(s) || (es != [] && EverDoomed(Step(s, es[0]), es[1..]))
  }

  lemma {:induction false} EverDoomedFrom(s: State, es: seq<Event>)
    requires Inv(s) && OwnedRun(s, es)
    ensures EverDoomed(s, es) <==> Overdrawn(s, es)
    decreases |es|
  {
    forall fs | OnlyGo(fs) ensures !ReadsPastEnd(Exec(s, fs)) { GoKeepsInv(s, fs); }
    if es != [] {
      var s1 := Step(s, es[0]);
      if Overdraft(s, es[0]) {
        var fs := Overdraw(s, es[0].t);
        assert Doomed(s1);
      } else {
        RecentIsFresh(s);
        if !Disciplined(s, es[0]) { assert s1 == s; } else { StepKeepsInv(s, es[0]); }
        EverDoomedFrom(s1, es[1..]);
      }
    }
  }

  /** In runs with owned frees and living tags a read past the end is reachable exactly when some call overdraws the pool. */
  lemma PastEndIffOverdrawn(size: nat, threads: nat, es: seq<Event>)
    requires 0 < size < NIL && OwnedRun(Init(size, threads), es)
    ensures EverDoomed(Init(size, threads), es) <==> Overdrawn(Init(size, threads), es)
  {
    InitInv(size, threads);
    EverDoomedFrom(Init(size, threads), es);
  }

  /** A run of one thread: one slot, two allocations. */
  lemma ExhaustedPoolRun()
    ensures
      var go := Go(0, false);
      Exec(Init(1, 1), [CallAllocate(0), go, go, go, CallAllocate(0), go, go]).pcs == [OutOfRange]
  {
    var go := Go(0, false);
    var s0 := Init(1, 1);
    assert s0.head == Head(0, 0) && s0.free == [0];
    var s1 := Step(s0, CallAllocate(0));
    var s2 := Step(s1, go);
    var s3 := Step(s2, go);
    assert s3.pcs == [AllocCas(Head(0, 0), WORD - 1, 0, [0])];
    var s4 := Step(s3, go);
    assert s4.pcs == [AllocDone(0)] && s4.head == Head(NIL, 1);
    var s5 := Step(s4, CallAllocate(0));
    var s6 := Step(s5, go);
    var s7 := Step(s6, go);
    assert s7.pcs == [OutOfRange];
    ExecPair(s0, CallAllocate(0), go);
    ExecPair(s2, go, go);
    ExecPair(s4, CallAllocate(0), go);
    var es := [CallAllocate(0), go, go, go, CallAllocate(0), go, go];
    assert es == [CallAllocate(0), go] + ([go, go] + ([CallAllocate(0), go] + [go]));
    ExecAppend(s0, [CallAllocate(0), go], [go, go] + ([CallAllocate(0), go] + [go]));
    ExecAppend(s2, [go, go], [CallAllocate(0), go] + [go]);
    ExecAppend(s4, [CallAllocate(0), go], [go]);
    assert [go][1..] == [] && Exec(s7, []) == s7;
  }

  /** Two threads, one slot: both calls begin while the chain is not empty, and still one reads past the end. */
  lemma RacingAllocationsRun() returns (es: seq<Event>)
    ensures OnlyGo(es) && |Init(1, 2).free| == 1
    ensures ReadsPastEnd(Exec(Step(Step(Init(1, 2), CallAllocate(1)), CallAllocate(0)), es))
  {
    var s := Init(1, 2);
    InitInv(1, 2);
    EmptyReservation(1, 2);
    CallAllocateOk(s, 1);
    es := Overdraw(SetPc(s, 1, AllocLoad), 0);
  }
}
