/**
 The optimistic-count / overcommit protocol by which consumers of one moodycamel
 producer claim element indices (`dequeue` and `dequeue_bulk`), as a step
 system: one atomic access per step, any number of consumers, every interleaving,
 stale loads of the overcommit counter included, unbounded counters.
 */
module TicketProtocol {
  import opened Basics

  datatype Pc =
    | Idle
    | LoadTail(max: nat)
    | LoadOvercommit(max: nat, tail: nat)
    | LoadOptimistic(max: nat, tail: nat, over: nat)
    | TakeTickets(over: nat, desired: nat)
    | ReloadTail(over: nat, my: nat, desired: nat)
    | AddOvercommit(rejected: nat, granted: nat)
    | AddHead(granted: nat)
    | Done(first: nat, count: nat)

  /** History: what became of each optimistic ticket. */
  datatype Fate = InFlight(t: nat) | Granted | Rejected

  /** History: a successful headIndex.fetch_add. */
  datatype Claim = Claim(t: nat, first: nat, count: nat)

  datatype State = State(
    tail: nat,
    head: nat,
    optimistic: nat,
    overcommit: nat,
    pcs: seq<Pc>,
    fates: seq<Fate>,
    claims: seq<Claim>)

  datatype Event = Publish(k: nat) | CallDequeue(t: nat, max: nat) | Go(t: nat)

  function Init(threads: nat): State {
    State(0, 0, 0, 0, seq(threads, _ => Idle), [], [])
  }

  predicate Ready(pc: Pc) {
    pc.Idle? || pc.Done?
  }

  function Min(a: int, b: int): int {
    if a < b then a else b
  }

  function SetPc(s: State, t: nat, pc: Pc): State
    requires t < |s.pcs|
  {
    s.(pcs := s.pcs[t := pc])
  }

  /** Tickets my .. my+granted are granted, the rest of the `desired` ones are rejected. */
  function Resolve(fates: seq<Fate>, my: nat, desired: nat, granted: nat): seq<Fate>
    requires granted <= desired
  {
    seq(|fates|, (i: nat) requires i < |fates| =>
      if my <= i < my + granted then Granted else if my + granted <= i < my + desired then Rejected else fates[i])
  }

  /** One atomic action of `dequeue` (max = 1) or `dequeue_bulk` by thread t. */
  function Act(s: State, t: nat): (r: State)
    requires t < |s.pcs|
    ensures |r.pcs| == |s.pcs|
  {
    match s.pcs[t]
    case LoadTail(max) => SetPc(s, t, LoadOvercommit(max, s.tail))
    case LoadOvercommit(max, tail) => SetPc(s, t, LoadOptimistic(max, tail, s.overcommit))
    case LoadOptimistic(max, tail, over) =>
      var desired := tail - (s.optimistic - over);
      SetPc(s, t, if desired > 0 then TakeTickets(over, Min(desired, max)) else Done(0, 0))
    case TakeTickets(over, desired) =>
      SetPc(s, t, ReloadTail(over, s.optimistic, desired))
        .(optimistic := s.optimistic + desired, fates := s.fates + seq(desired, _ => InFlight(t)))
    case ReloadTail(over, my, desired) =>
      var actual := s.tail - (my - over);
      if actual > 0 then
        var granted := Min(desired, actual);
        SetPc(s, t, if granted < desired then AddOvercommit(desired - granted, granted) else AddHead(granted))
          .(fates := Resolve(s.fates, my, desired, granted))
      else
        SetPc(s, t, AddOvercommit(desired, 0)).(fates := Resolve(s.fates, my, desired, 0))
    case AddOvercommit(rejected, granted) =>
      SetPc(s, t, if granted > 0 then AddHead(granted) else Done(0, 0)).(overcommit := s.overcommit + rejected)
    case AddHead(granted) =>
      SetPc(s, t, Done(s.head, granted))
        .(head := s.head + granted, claims := s.claims + [Claim(t, s.head, granted)])
    case _ => s
  }

  function Step(s: State, e: Event): State {
    match e
    case Publish(k) => s.(tail := s.tail + k)
    case CallDequeue(t, max) => if t < |s.pcs| && Ready(s.pcs[t]) then SetPc(s, t, LoadTail(max)) else s
    case Go(t) => if t < |s.pcs| then Act(s, t) else s
  }

  function Exec(s: State, es: seq<Event>): State
    decreases |es|
  {
    if es == [] then s else Exec(Step(s, es[0]), es[1..])
  }

  // ----- Counting fates -----

  ghost function RejectedBelow(f: seq<Fate>, k: nat): nat
    requires k <= |f|
  {
    if k == 0 then 0 else RejectedBelow(f, k - 1) + (if f[k - 1].Rejected? then 1 else 0)
  }

  ghost function GrantedBelow(f: seq<Fate>, k: nat): nat
    requires k <= |f|
  {
    if k == 0 then 0 else GrantedBelow(f, k - 1) + (if f[k - 1].Granted? then 1 else 0)
  }

  lemma {:induction false} BelowPrefix(f: seq<Fate>, g: seq<Fate>, k: nat)
    requires k <= |f| && k <= |g| && f[..k] == g[..k]
    ensures RejectedBelow(f, k) == RejectedBelow(g, k) && GrantedBelow(f, k) == GrantedBelow(g, k)
  {
    if k > 0 {
      assert f[..k - 1] == f[..k][..k - 1] && g[..k - 1] == g[..k][..k - 1];
      assert f[k - 1] == f[..k][k - 1] && g[k - 1] == g[..k][k - 1];
      BelowPrefix(f, g, k - 1);
    }
  }

  lemma {:induction false} BelowInFlight(f: seq<Fate>, lo: nat, k: nat)
    requires lo <= k <= |f| && forall i :: lo <= i < k ==> f[i].InFlight?
    ensures RejectedBelow(f, k) == RejectedBelow(f, lo) && GrantedBelow(f, k) == GrantedBelow(f, lo)
  {
    if lo < k { BelowInFlight(f, lo, k - 1); }
  }

  function Clamp(x: int, n: nat): nat {
    if x < 0 then 0 else if x > n then n else x
  }

  /** Resolving a stretch of in-flight tickets adds exactly the granted and the rejected ones. */
  lemma {:induction false} BelowResolve(f: seq<Fate>, my: nat, d: nat, g: nat, k: nat)
    requires g <= d && my + d <= |f| && k <= |f| && forall i :: my <= i < my + d ==> f[i].InFlight?
    ensures GrantedBelow(Resolve(f, my, d, g), k) == GrantedBelow(f, k) + Clamp(k - my, g)
    ensures RejectedBelow(Resolve(f, my, d, g), k) == RejectedBelow(f, k) + Clamp(k - my - g, d - g)
  {
    if k > 0 { BelowResolve(f, my, d, g, k - 1); }
  }

  lemma {:induction false} BelowSum(f: seq<Fate>, k: nat)
    requires k <= |f|
    ensures GrantedBelow(f, k) + RejectedBelow(f, k) <= k
  {
    if k > 0 { BelowSum(f, k - 1); }
  }

  // ----- The inductive invariant -----

  ghost function RejectWeight(): Pc -> nat {
    (pc: Pc) => if pc.AddOvercommit? then pc.rejected else 0
  }

  ghost function GrantWeight(): Pc -> nat {
    (pc: Pc) => if pc.AddOvercommit? || pc.AddHead? then pc.granted else 0
  }

  /** Tickets a thread has taken and not yet turned into overcommit or head. */
  ghost function TicketWeight(): Pc -> nat {
    (pc: Pc) =>
      match pc
      case ReloadTail(_, _, desired) => desired
      case AddOvercommit(rejected, granted) => rejected + granted
      case AddHead(granted) => granted
      case _ => 0
  }

  ghost predicate Sums(s: State) {
    && |s.fates| == s.optimistic
    && RejectedBelow(s.fates, |s.fates|) == s.overcommit + SumBy(s.pcs, RejectWeight())
    && GrantedBelow(s.fates, |s.fates|) == s.head + SumBy(s.pcs, GrantWeight())
    && s.optimistic == s.head + s.overcommit + SumBy(s.pcs, TicketWeight())
  }

  /** What made a grant safe when it was given: the ticket minus the rejections below it is an element. */
  ghost predicate GrantsOk(s: State) {
    forall k: nat {:trigger RejectedBelow(s.fates, k)} ::
      k < |s.fates| && s.fates[k].Granted? ==> k + 1 <= s.tail + RejectedBelow(s.fates, k)
  }

  ghost predicate ThreadOk(s: State, t: nat)
    requires t < |s.pcs|
  {
    match s.pcs[t]
    case LoadOptimistic(_, _, over) => over <= s.overcommit
    case TakeTickets(over, _) => over <= s.overcommit
    case ReloadTail(over, my, desired) =>
      && my + desired <= |s.fates| && over <= RejectedBelow(s.fates, my)
      && (forall i: nat :: my <= i < my + desired ==> s.fates[i] == InFlight(t))
    case _ => true
  }

  /** Where claim i starts; the head after the last one. */
  ghost function Start(s: State, i: nat): nat
    requires i <= |s.claims|
  {
    if i < |s.claims| then s.claims[i].first else s.head
  }

  /** Claims follow each other without gap or overlap, from index 0 to the head. */
  ghost predicate ClaimsOk(s: State) {
    && Start(s, 0) == 0
    && (forall i: nat {:trigger Meets(s, i)} :: i < |s.claims| ==> Meets(s, i))
  }

  ghost predicate Meets(s: State, i: nat)
    requires i < |s.claims|
  {
    Start(s, i) + s.claims[i].count == Start(s, i + 1)
  }

  ghost predicate Inv(s: State) {
    && Sums(s) && GrantsOk(s) && ClaimsOk(s)
    && (forall t: nat {:trigger ThreadOk(s, t)} :: t < |s.pcs| ==> ThreadOk(s, t))
  }

  // ----- Preservation -----

  lemma SumsUpdate(s: State, t: nat, pc: Pc)
    requires t < |s.pcs|
    ensures SumBy(s.pcs[t := pc], RejectWeight()) == SumBy(s.pcs, RejectWeight()) - RejectWeight()(s.pcs[t]) + RejectWeight()(pc)
    ensures SumBy(s.pcs[t := pc], GrantWeight()) == SumBy(s.pcs, GrantWeight()) - GrantWeight()(s.pcs[t]) + GrantWeight()(pc)
    ensures SumBy(s.pcs[t := pc], TicketWeight()) == SumBy(s.pcs, TicketWeight()) - TicketWeight()(s.pcs[t]) + TicketWeight()(pc)
  {
    SumByUpdate(s.pcs, t, pc, RejectWeight());
    SumByUpdate(s.pcs, t, pc, GrantWeight());
    SumByUpdate(s.pcs, t, pc, TicketWeight());
  }

  lemma TakeStep(s: State, t: nat)
    requires Inv(s) && t < |s.pcs| && s.pcs[t].TakeTickets?
    ensures Inv(Act(s, t))
  {
    var s' := Act(s, t);
    var n := |s.fates|;
    SumsUpdate(s, t, s'.pcs[t]);
    assert ThreadOk(s, t);
    BelowInFlight(s'.fates, n, |s'.fates|);
    BelowPrefix(s.fates, s'.fates, n);
    forall k: nat | k < |s'.fates| && s'.fates[k].Granted?
      ensures k + 1 <= s'.tail + RejectedBelow(s'.fates, k)
    {
      assert s.fates[k] == s'.fates[k];
      BelowPrefix(s.fates, s'.fates, k);
    }
    ClaimsKept(s, s');
    forall u: nat | u < |s'.pcs| ensures ThreadOk(s', u) {
      assert ThreadOk(s, u);
      if u != t && s.pcs[u].ReloadTail? { BelowPrefix(s.fates, s'.fates, s.pcs[u].my); }
    }
  }

  lemma DecideGrants(s: State, t: nat, granted: nat)
    requires Inv(s) && t < |s.pcs| && s.pcs[t].ReloadTail? && granted <= s.pcs[t].desired
    requires granted > 0 ==> granted <= s.tail - (s.pcs[t].my - s.pcs[t].over)
    ensures GrantsOk(s.(fates := Resolve(s.fates, s.pcs[t].my, s.pcs[t].desired, granted)))
  {
    var ReloadTail(over, my, desired) := s.pcs[t];
    var f := Resolve(s.fates, my, desired, granted);
    assert ThreadOk(s, t);
    forall k: nat | k < |f| && f[k].Granted? ensures k + 1 <= s.tail + RejectedBelow(f, k) {
      BelowResolve(s.fates, my, desired, granted, k);
      if my <= k < my + granted { BelowInFlight(s.fates, my, k); }
      assert RejectedBelow(s.fates, k) >= 0;
    }
  }

  /** The tickets of another thread are other tickets, and rejections below them only grow. */
  lemma DecideOther(s: State, t: nat, granted: nat, u: nat)
    requires t < |s.pcs| && u < |s.pcs| && t != u && ThreadOk(s, t) && ThreadOk(s, u)
    requires s.pcs[t].ReloadTail? && s.pcs[u].ReloadTail? && granted <= s.pcs[t].desired
    ensures
      var f, my, desired := Resolve(s.fates, s.pcs[t].my, s.pcs[t].desired, granted), s.pcs[u].my, s.pcs[u].desired;
      && my + desired <= |f| && s.pcs[u].over <= RejectedBelow(f, my)
      && (forall i: nat :: my <= i < my + desired ==> f[i] == InFlight(u))
  {
    var f := Resolve(s.fates, s.pcs[t].my, s.pcs[t].desired, granted);
    forall i: nat | s.pcs[u].my <= i < s.pcs[u].my + s.pcs[u].desired ensures f[i] == InFlight(u) {
      assert s.fates[i] == InFlight(u);
    }
    BelowResolve(s.fates, s.pcs[t].my, s.pcs[t].desired, granted, s.pcs[u].my);
  }

  lemma DecideThreads(s: State, t: nat, granted: nat, s': State)
    requires Inv(s) && t < |s.pcs| && s.pcs[t].ReloadTail? && granted <= s.pcs[t].desired
    requires |s'.pcs| == |s.pcs| && s'.pcs == s.pcs[t := s'.pcs[t]] && !s'.pcs[t].ReloadTail?
    requires !s'.pcs[t].LoadOptimistic? && !s'.pcs[t].TakeTickets? && s'.overcommit == s.overcommit
    requires s'.fates == Resolve(s.fates, s.pcs[t].my, s.pcs[t].desired, granted)
    ensures forall u: nat {:trigger ThreadOk(s', u)} :: u < |s'.pcs| ==> ThreadOk(s', u)
  {
    forall u: nat {:trigger ThreadOk(s', u)} | u < |s'.pcs| ensures ThreadOk(s', u) {
      assert ThreadOk(s, u);
      if u != t && s.pcs[u].ReloadTail? { DecideOther(s, t, granted, u); }
    }
  }

  /** The decision step: the grant is covered by the rejections that were counted before the tickets were taken. */
  lemma DecideStep(s: State, t: nat)
    requires Inv(s) && t < |s.pcs| && s.pcs[t].ReloadTail?
    ensures Inv(Act(s, t))
    ensures
      var ReloadTail(over, my, desired) := s.pcs[t];
      var granted := GrantWeight()(Act(s, t).pcs[t]);
      && my <= |s.fates| && over <= RejectedBelow(s.fates, my) && granted <= desired
      && (granted > 0 ==> my + granted <= s.tail + RejectedBelow(s.fates, my))
      && (granted < desired ==> s.tail + over <= my + granted)
      && Act(s, t).fates == Resolve(s.fates, my, desired, granted)
  {
    var s' := Act(s, t);
    var ReloadTail(over, my, desired) := s.pcs[t];
    var granted := if s.tail - (my - over) > 0 then Min(desired, s.tail - (my - over)) else 0;
    assert ThreadOk(s, t);
    assert s'.fates == Resolve(s.fates, my, desired, granted);
    DecideSums(s, t, granted);
    DecideGrants(s, t, granted);
    ClaimsKept(s, s');
    DecideThreads(s, t, granted, s');
  }

  /** The decision splits the tickets into granted and rejected ones. */
  lemma DecideWeights(s: State, t: nat)
    requires t < |s.pcs| && s.pcs[t].ReloadTail?
    ensures
      var pc, desired := Act(s, t).pcs[t], s.pcs[t].desired;
      && GrantWeight()(pc) <= desired && RejectWeight()(pc) == desired - GrantWeight()(pc) && TicketWeight()(pc) == desired
      && RejectWeight()(s.pcs[t]) == GrantWeight()(s.pcs[t]) == 0 && TicketWeight()(s.pcs[t]) == desired
      && Act(s, t).pcs == s.pcs[t := pc] && Act(s, t).head == s.head
      && Act(s, t).overcommit == s.overcommit && Act(s, t).optimistic == s.optimistic
  {
  }

  lemma DecideSums(s: State, t: nat, granted: nat)
    requires Inv(s) && t < |s.pcs| && s.pcs[t].ReloadTail? && granted <= s.pcs[t].desired
    requires Act(s, t).fates == Resolve(s.fates, s.pcs[t].my, s.pcs[t].desired, granted)
    requires GrantWeight()(Act(s, t).pcs[t]) == granted
    ensures Sums(Act(s, t))
  {
    DecideWeights(s, t);
    SumsUpdate(s, t, Act(s, t).pcs[t]);
    assert ThreadOk(s, t);
    BelowResolve(s.fates, s.pcs[t].my, s.pcs[t].desired, granted, |s.fates|);
  }

  lemma ClaimsKept(s: State, s': State)
    requires ClaimsOk(s) && s'.claims == s.claims && s'.head == s.head
    ensures ClaimsOk(s')
  {
    assert Start(s, 0) == Start(s', 0);
    forall i: nat | i < |s'.claims| ensures Meets(s', i) {
      assert Meets(s, i);
    }
  }

  lemma HeadStep(s: State, t: nat)
    requires Inv(s) && t < |s.pcs| && s.pcs[t].AddHead?
    ensures Inv(Act(s, t))
  {
    var s' := Act(s, t);
    SumsUpdate(s, t, s'.pcs[t]);
    assert Start(s, 0) == Start(s', 0);
    forall i: nat | i < |s'.claims| ensures Meets(s', i) {
      assert i < |s.claims| ==> Meets(s, i);
    }
    forall u: nat | u < |s'.pcs| ensures ThreadOk(s', u) { assert ThreadOk(s, u); }
  }

  lemma OvercommitStep(s: State, t: nat)
    requires Inv(s) && t < |s.pcs| && s.pcs[t].AddOvercommit?
    ensures Inv(Act(s, t))
  {
    var s' := Act(s, t);
    SumsUpdate(s, t, s'.pcs[t]);
    ClaimsKept(s, s');
    forall u: nat | u < |s'.pcs| ensures ThreadOk(s', u) { assert ThreadOk(s, u); }
  }

  /** A call, a load or a publication. */
  lemma QuietStep(s: State, s': State, t: nat)
    requires Inv(s) && t < |s.pcs| == |s'.pcs| && s'.pcs == s.pcs[t := s'.pcs[t]] && ThreadOk(s', t)
    requires s' == s.(pcs := s'.pcs)
    requires TicketWeight()(s.pcs[t]) == TicketWeight()(s'.pcs[t]) == 0
    ensures Inv(s')
  {
    SumsUpdate(s, t, s'.pcs[t]);
    ClaimsKept(s, s');
    forall u: nat | u < |s'.pcs| ensures ThreadOk(s', u) { assert ThreadOk(s, u); }
  }

  lemma ActKeepsInv(s: State, t: nat)
    requires Inv(s) && t < |s.pcs|
    ensures Inv(Act(s, t))
  {
    match s.pcs[t]
    case TakeTickets(_, _) => TakeStep(s, t);
    case ReloadTail(_, _, _) => DecideStep(s, t);
    case AddOvercommit(_, _) => OvercommitStep(s, t);
    case AddHead(_) => HeadStep(s, t);
    case Idle | Done(_, _) =>
    case _ =>
      assert ThreadOk(s, t);
      QuietStep(s, Act(s, t), t);
  }

  lemma StepKeepsInv(s: State, e: Event)
    requires Inv(s)
    ensures Inv(Step(s, e))
  {
    var s' := Step(s, e);
    match e
    case Publish(k) =>
      ClaimsKept(s, s');
      forall u: nat | u < |s'.pcs| ensures ThreadOk(s', u) { assert ThreadOk(s, u); }
    case CallDequeue(t, max) => if t < |s.pcs| && Ready(s.pcs[t]) { QuietStep(s, s', t); }
    case Go(t) => if t < |s.pcs| { ActKeepsInv(s, t); }
  }

  lemma {:induction false} ExecKeepsInv(s: State, es: seq<Event>)
    requires Inv(s)
    ensures Inv(Exec(s, es))
    decreases |es|
  {
    if es != [] {
      StepKeepsInv(s, es[0]);
      ExecKeepsInv(Step(s, es[0]), es[1..]);
    }
  }

  lemma IdleSums(pcs: seq<Pc>)
    requires forall t: nat :: t < |pcs| ==> pcs[t].Idle?
    ensures SumBy(pcs, RejectWeight()) == SumBy(pcs, GrantWeight()) == SumBy(pcs, TicketWeight()) == 0
  {
    SumByZero(pcs, RejectWeight());
    SumByZero(pcs, GrantWeight());
    SumByZero(pcs, TicketWeight());
  }

  lemma InitInv(threads: nat)
    ensures Inv(Init(threads))
  {
    IdleSums(Init(threads).pcs);
  }

  // ----- Main results -----

  /** No more tickets are granted than elements were published. */
  lemma {:induction false} GrantsWithinTail(s: State, k: nat)
    requires GrantsOk(s) && k <= |s.fates|
    ensures GrantedBelow(s.fates, k) <= s.tail
  {
    if k > 0 {
      GrantsWithinTail(s, k - 1);
      BelowSum(s.fates, k - 1);
    }
  }

  /**
   In every run `headIndex`, and even the head after all granted claims still
   to come, stays at or below `tailIndex`, and the optimistic count is the head
   plus the overcommit plus the tickets still in flight.
   */
  lemma HeadNeverPassesTail(threads: nat, es: seq<Event>)
    ensures
      var s := Exec(Init(threads), es);
      && s.head + SumBy(s.pcs, GrantWeight()) <= s.tail
      && s.optimistic == s.head + s.overcommit + SumBy(s.pcs, TicketWeight())
  {
    InitInv(threads);
    ExecKeepsInv(Init(threads), es);
    var s := Exec(Init(threads), es);
    GrantsWithinTail(s, |s.fates|);
  }

  ghost predicate Covers(c: Claim, i: nat) {
    c.first <= i < c.first + c.count
  }

  lemma {:induction false} ClaimsOrdered(s: State, a: nat, b: nat)
    requires ClaimsOk(s) && a < b <= |s.claims|
    ensures Start(s, a) + s.claims[a].count <= Start(s, b)
    decreases b - a
  {
    assert Meets(s, a);
    if a + 1 < b { ClaimsOrdered(s, a + 1, b); }
  }

  lemma {:induction false} ClaimsCover(s: State, i: nat, j: nat) returns (c: nat)
    requires ClaimsOk(s) && j <= |s.claims| && Start(s, j) <= i < s.head
    ensures c < |s.claims| && Covers(s.claims[c], i)
    decreases |s.claims| - j
  {
    assert Meets(s, j);
    if Covers(s.claims[j], i) { c := j; } else { c := ClaimsCover(s, i, j + 1); }
  }

  /** In every run each index below the head is claimed by exactly one dequeue, and was published. */
  lemma ClaimedExactlyOnce(threads: nat, es: seq<Event>, i: nat)
    ensures
      var s := Exec(Init(threads), es);
      && (i < s.head <==> exists c: nat :: c < |s.claims| && Covers(s.claims[c], i))
      && (forall a: nat, b: nat :: a < |s.claims| && b < |s.claims| && Covers(s.claims[a], i) && Covers(s.claims[b], i) ==> a == b)
      && (i < s.head ==> i < s.tail)
  {
    HeadNeverPassesTail(threads, es);
    InitInv(threads);
    ExecKeepsInv(Init(threads), es);
    var s := Exec(Init(threads), es);
    if i < s.head { var c := ClaimsCover(s, i, 0); }
    forall a: nat, b: nat | a < |s.claims| && b < |s.claims| && Covers(s.claims[a], i) && Covers(s.claims[b], i)
      ensures a == b
    {
      if a < b { ClaimsOrdered(s, a, b); } else if b < a { ClaimsOrdered(s, b, a); }
    }
    forall c: nat | c < |s.claims| && Covers(s.claims[c], i) ensures i < s.head { ClaimsOrdered(s, c, |s.claims|); }
  }

  // ----- Answers -----

  /**
   How a call ends: with the elements it added to the head, which nobody else
   claims, or empty-handed, and then every element it saw published is claimed,
   has a ticket in flight, or is hidden by rejections it had not counted.
   */
  lemma AnswerJustified(s: State, t: nat)
    requires Inv(s) && t < |s.pcs| && !Ready(s.pcs[t])
    ensures
      var s' := Act(s, t);
      Ready(s'.pcs[t]) ==>
        && s'.pcs[t].Done?
        && (s'.pcs[t].count > 0 ==>
              && s'.claims == s.claims + [Claim(t, s'.pcs[t].first, s'.pcs[t].count)]
              && s'.pcs[t].first == s.head && s'.head == s.head + s'.pcs[t].count)
        && (s'.pcs[t].count == 0 && s.pcs[t].LoadOptimistic? ==>
              s.pcs[t].tail <= s.head + SumBy(s.pcs, TicketWeight()) + (s.overcommit - s.pcs[t].over))
  {
  }

  /** A call begins whenever its consumer is ready, and answers nothing yet. */
  lemma CallBegins(s: State, t: nat, max: nat)
    requires t < |s.pcs| && Ready(s.pcs[t])
    ensures
      var s' := Step(s, CallDequeue(t, max));
      |s'.pcs| == |s.pcs| && !Ready(s'.pcs[t]) && s' == s.(pcs := s'.pcs) && s'.pcs == s.pcs[t := s'.pcs[t]]
  {
  }

  /** Only the end of a call changes the claims. */
  lemma ClaimsAreAnswers(s: State, t: nat)
    requires t < |s.pcs|
    ensures
      var s' := Act(s, t);
      s'.claims != s.claims ==> !Ready(s.pcs[t]) && s'.pcs[t].Done? && s'.claims == s.claims + [Claim(t, s'.pcs[t].first, s'.pcs[t].count)]
  {
  }

  /** The non-empty answers of a run, in the order in which they were given, read off the consumers. */
  function Answers(s: State, es: seq<Event>): seq<Claim>
    decreases |es|
  {
    if es == [] then [] else AnswerOf(s, es[0]) + Answers(Step(s, es[0]), es[1..])
  }

  /** Claims of no element aside, the claims are the answers. */
  function NonEmpty(cs: seq<Claim>): seq<Claim> {
    if cs == [] then [] else NonEmpty(cs[..|cs| - 1]) + if cs[|cs| - 1].count > 0 then [cs[|cs| - 1]] else []
  }

  /** The answer given by one event, if any. */
  function AnswerOf(s: State, e: Event): seq<Claim> {
    var s', t := Step(s, e), if e.Go? then e.t else |s.pcs|;
    if t < |s.pcs| == |s'.pcs| && !Ready(s.pcs[t]) && s'.pcs[t].Done? && s'.pcs[t].count > 0
    then [Claim(t, s'.pcs[t].first, s'.pcs[t].count)] else []
  }

  lemma StepAnswers(s: State, e: Event)
    requires Inv(s)
    ensures NonEmpty(Step(s, e).claims) == NonEmpty(s.claims) + AnswerOf(s, e)
  {
    var s' := Step(s, e);
    if e.Go? && e.t < |s.pcs| {
      ClaimsAreAnswers(s, e.t);
      if !Ready(s.pcs[e.t]) { AnswerJustified(s, e.t); }
      assert s'.claims != s.claims ==> s'.claims[..|s'.claims| - 1] == s.claims;
    }
  }

  lemma {:induction false} AnswersAreClaims(s: State, es: seq<Event>)
    requires Inv(s)
    ensures NonEmpty(Exec(s, es).claims) == NonEmpty(s.claims) + Answers(s, es)
    decreases |es|
  {
    if es != [] {
      var s' := Step(s, es[0]);
      StepKeepsInv(s, es[0]);
      AnswersAreClaims(s', es[1..]);
      StepAnswers(s, es[0]);
    }
  }

  lemma {:induction false} NonEmptyCovers(cs: seq<Claim>, i: nat)
    ensures (exists a: nat :: a < |cs| && Covers(cs[a], i)) <==> exists b: nat :: b < |NonEmpty(cs)| && Covers(NonEmpty(cs)[b], i)
    ensures (forall a: nat, b: nat :: a < b < |cs| ==> !(Covers(cs[a], i) && Covers(cs[b], i))) ==>
      forall a: nat, b: nat :: a < b < |NonEmpty(cs)| ==> !(Covers(NonEmpty(cs)[a], i) && Covers(NonEmpty(cs)[b], i))
  {
    if cs != [] {
      var n := |cs| - 1;
      var front, ne := cs[..n], NonEmpty(cs[..n]);
      NonEmptyCovers(front, i);
      assert forall a: nat :: a < n ==> front[a] == cs[a];
      assert forall b: nat :: b < |ne| ==> NonEmpty(cs)[b] == ne[b];
      assert cs[n].count > 0 ==> NonEmpty(cs)[|ne|] == cs[n];
    }
  }

  /** In every run each index below the head was answered to exactly one consumer, was published, and no other index was answered. */
  lemma AnsweredExactlyOnce(threads: nat, es: seq<Event>, i: nat)
    ensures
      var s, answers := Exec(Init(threads), es), Answers(Init(threads), es);
      && (i < s.head <==> exists c: nat :: c < |answers| && Covers(answers[c], i))
      && (forall a: nat, b: nat :: a < b < |answers| ==> !(Covers(answers[a], i) && Covers(answers[b], i)))
      && (i < s.head ==> i < s.tail)
  {
    InitInv(threads);
    AnswersAreClaims(Init(threads), es);
    ClaimedExactlyOnce(threads, es, i);
    NonEmptyCovers(Exec(Init(threads), es).claims, i);
    assert NonEmpty(Exec(Init(threads), es).claims) == Answers(Init(threads), es);
  }

  /** The three loads of a dequeue that nobody disturbs. */
  function Loads(s: State, t: nat, max: nat): (r: State)
    requires t < |s.pcs|
    ensures |r.pcs| == |s.pcs|
  {
    Act(Act(Act(Step(s, CallDequeue(t, max)), t), t), t)
  }

  function Grab(s: State, t: nat): (r: State)
    requires t < |s.pcs|
    ensures |r.pcs| == |s.pcs|
  {
    Act(Act(Act(s, t), t), t)
  }

  lemma LoadsOf(s: State, t: nat, max: nat)
    requires t < |s.pcs| && Ready(s.pcs[t])
    ensures
      var desired := s.tail - (s.optimistic - s.overcommit);
      Loads(s, t, max) == SetPc(s, t, if desired > 0 then TakeTickets(s.overcommit, Min(desired, max)) else Done(0, 0))
  {
    var s1 := SetPc(s, t, LoadTail(max));
    var s2 := SetPc(s, t, LoadOvercommit(max, s.tail));
    var s3 := SetPc(s, t, LoadOptimistic(max, s.tail, s.overcommit));
    assert Act(s1, t) == s2 && Act(s2, t) == s3;
  }

  lemma GrabOf(s: State, t: nat, m: nat)
    requires t < |s.pcs| && s.pcs[t] == TakeTickets(s.overcommit, m) && 0 < m <= s.tail - s.head
    requires s.optimistic == s.head + s.overcommit
    ensures Grab(s, t).pcs[t] == Done(s.head, m)
  {
    var s1 := Act(s, t);
    assert s1.pcs[t] == ReloadTail(s.overcommit, s.optimistic, m);
    assert Act(s1, t).pcs[t] == AddHead(m);
  }

  /** Failed attempts leave no trace: run alone, a dequeue gets min(max, tail - head) elements, starting at the head. */
  lemma SoloDequeue(s: State, t: nat, max: nat)
    requires Inv(s) && t < |s.pcs| && max > 0 && forall u: nat :: u < |s.pcs| ==> Ready(s.pcs[u])
    ensures s.head <= s.tail
    ensures
      if s.head == s.tail then Loads(s, t, max).pcs[t] == Done(0, 0)
      else Grab(Loads(s, t, max), t).pcs[t] == Done(s.head, Min(max, s.tail - s.head))
  {
    SumByZero(s.pcs, TicketWeight());
    SumByZero(s.pcs, GrantWeight());
    GrantsWithinTail(s, |s.fates|);
    LoadsOf(s, t, max);
    if s.head < s.tail { GrabOf(Loads(s, t, max), t, Min(s.tail - s.head, max)); }
  }
}
