/**
 From the trade store to the downstream queue: the store and its numbering
 (include/Utils.hpp), the snapshot server (include/TradeServer.hpp) and the
 sequencer with its gap recovery (include/TradeReceiver.hpp).
 */
module GapRecovery {
  import opened Basics

  datatype Trade = Trade(
    sequence: nat,
    tradeId: nat,
    timestamp: nat,
    price: real,
    quantity: real,
    buyerIsMaker: bool,
    bestMatch: bool,
    symbol: string)

  // ----- The store -----

  ghost predicate SortedByTime(s: seq<Trade>) {
    forall i: nat, j: nat :: i < j < |s| ==> s[i].timestamp <= s[j].timestamp
  }

  /** Every trade carries its position as sequence number. */
  ghost predicate Numbered(s: seq<Trade>) {
    forall i: nat :: i < |s| ==> s[i].sequence == i
  }

  function Renumbered(s: seq<Trade>): seq<Trade> {
    seq(|s|, (i: nat) requires i < |s| => s[i].(sequence := i))
  }

  /** The directory's trades in some order of time, numbered in that order. */
  ghost predicate IsMergeOf(store: seq<Trade>, lines: seq<Trade>) {
    exists s: seq<Trade> :: SortedByTime(s) && multiset(s) == multiset(lines) && store == Renumbered(s)
  }

  class TradeMsgStore {
    var store: seq<Trade>

    /** One file: parsing appends each line under the current size. */
    constructor FromFile(lines: seq<Trade>)
      ensures Numbered(store) && store == Renumbered(lines)
    {
      var s := [];
      var i := 0;
      while i < |lines|
        invariant i == |s| <= |lines|
        invariant forall j: nat :: j < i ==> s[j] == lines[j].(sequence := j)
      {
        s := s + [lines[i].(sequence := |s|)];
        i := i + 1;
      }
      store := s;
    }

    /** A directory: all files, sorted by timestamp, then renumbered. */
    constructor FromDirectory(lines: seq<Trade>)
      ensures Numbered(store) && SortedByTime(store) && IsMergeOf(store, lines)
    {
      var sorted := SortByTimestamp(lines);
      var s := sorted;
      var i := 0;
      while i < |s|
        invariant i <= |s| == |sorted|
        invariant forall j: nat :: j < i ==> s[j] == sorted[j].(sequence := j)
        invariant forall j: nat :: i <= j < |s| ==> s[j] == sorted[j]
      {
        s := s[i := s[i].(sequence := i)];
        i := i + 1;
      }
      assert s == Renumbered(sorted);
      store := s;
    }

    /** A pointer into the store, null past its end. */
    method Get(index: nat) returns (t: Option<Trade>)
      ensures t == if index < |store| then Some(store[index]) else None
    {
      if index >= |store| { return None; }
      return Some(store[index]);
    }
  }

  /** std::sort by timestamp; callers rely on the order and the permutation only. */
  method SortByTimestamp(s: seq<Trade>) returns (r: seq<Trade>)
    ensures SortedByTime(r) && multiset(r) == multiset(s)
  {
    r := [];
    var i := 0;
    while i < |s|
      invariant i <= |s| && SortedByTime(r) && multiset(r) == multiset(s[..i])
    {
      r := InsertByTimestamp(r, s[i]);
      assert s[..i + 1] == s[..i] + [s[i]];
      i := i + 1;
    }
    assert s[..i] == s;
  }

  method InsertByTimestamp(s: seq<Trade>, t: Trade) returns (r: seq<Trade>)
    requires SortedByTime(s)
    ensures SortedByTime(r) && multiset(r) == multiset(s) + multiset{t}
  {
    var k := |s|;
    while k > 0 && s[k - 1].timestamp > t.timestamp
      invariant 0 <= k <= |s|
      invariant forall j: nat :: k <= j < |s| ==> t.timestamp < s[j].timestamp
    {
      k := k - 1;
    }
    r := s[..k] + [t] + s[k..];
    InsertionSorted(s, k, t);
    InsertionPermutes(s, k, t);
  }

  lemma InsertionSorted(s: seq<Trade>, k: nat, t: Trade)
    requires SortedByTime(s) && k <= |s|
    requires k > 0 ==> s[k - 1].timestamp <= t.timestamp
    requires forall j: nat :: k <= j < |s| ==> t.timestamp < s[j].timestamp
    ensures SortedByTime(s[..k] + [t] + s[k..])
  {
    var r := s[..k] + [t] + s[k..];
    forall i: nat, j: nat | i < j < |r| ensures r[i].timestamp <= r[j].timestamp {
      assert i < k ==> r[i] == s[i];
      assert j > k ==> r[j] == s[j - 1];
      assert j < k ==> r[j] == s[j];
      assert i > k ==> r[i] == s[i - 1];
    }
  }

  lemma InsertionPermutes(s: seq<Trade>, k: nat, t: Trade)
    requires k <= |s|
    ensures multiset(s[..k] + [t] + s[k..]) == multiset(s) + multiset{t}
  {
    assert s == s[..k] + s[k..];
  }

  // ----- The snapshot server -----

  /** The part of a request that lies in the store. */
  function Available(store: seq<Trade>, start: nat, end: nat): seq<Trade> {
    var hi := if end + 1 < |store| then end + 1 else |store|;
    if start < hi then store[start..hi] else []
  }

  /** In a numbered store these are exactly the trades with a number from start to end, in rising order. */
  lemma AvailableExact(store: seq<Trade>, start: nat, end: nat)
    requires Numbered(store)
    ensures forall m: Trade :: m in Available(store, start, end) <==> m in store && start <= m.sequence <= end
    ensures forall i: nat, j: nat :: i < j < |Available(store, start, end)| ==>
      Available(store, start, end)[i].sequence < Available(store, start, end)[j].sequence
  {
    forall m: Trade | m in store && start <= m.sequence <= end ensures m in Available(store, start, end) {
      assert Available(store, start, end)[m.sequence - start] == m;
    }
  }

  class SnapshotServer {
    const trades: TradeMsgStore

    constructor (trades: TradeMsgStore)
      ensures this.trades == trades
    {
      this.trades := trades;
    }

    /** The sending loop: sending a null pointer sends nothing. */
    method SendRange(start: nat, end: nat) returns (sent: seq<Trade>)
      ensures sent == Available(trades.store, start, end)
    {
      sent := [];
      var i := start;
      while i <= end
        invariant start <= i && (start <= end ==> i <= end + 1) && (end < start ==> i == start)
        invariant sent == if i > start then Available(trades.store, start, i - 1) else []
        decreases end + 1 - i
      {
        var t := trades.Get(i);
        if t.Some? { sent := sent + [t.value]; }
        i := i + 1;
      }
    }

    /** An invalid request is reported and then served all the same. */
    method ServeGapRequest(start: nat, end: nat) returns (sent: seq<Trade>)
      ensures sent == Available(trades.store, start, end)
      ensures Numbered(trades.store) ==> forall m: Trade :: m in sent <==> m in trades.store && start <= m.sequence <= end
    {
      sent := SendRange(start, end);
      if Numbered(trades.store) { AvailableExact(trades.store, start, end); }
    }
  }

  // ----- The sequencer -----

  /** What the recovery socket does next while the sequencer waits. */
  datatype Transport =
    | Deliver              // the next message of the answer, whole
    | Timeout
    | Partial              // a truncated read: the message is lost
    | Garbage(m: Trade)    // a full-sized read of anything at all
    | Closed
    | Error

  datatype Recovery = Completed | Broken | Threw | Starved
  /** Forwarded(Completed) also covers a message that needed no recovery. */
  datatype Outcome = Forwarded(after: Recovery) | Dropped | Failed(why: Recovery)
  datatype Request = Request(start: nat, end: nat)

  /** The recovery channel is reliable: whole messages, in order, at worst late. */
  predicate Reliable(script: seq<Transport>) {
    forall k: nat :: k < |script| ==> script[k].Deliver? || script[k].Timeout?
  }

  /** The recovery channel may fail, but what it delivers comes from the server. */
  predicate Honest(script: seq<Transport>) {
    forall k: nat :: k < |script| ==> !script[k].Garbage?
  }

  /**
   How a recovery that waits for `need` messages ends on an honest channel, with
   `left` messages of the answer still to come. After a truncated read the next
   message has the wrong number and throws.
   */
  function Fate(script: seq<Transport>, need: nat, left: nat): Recovery {
    if need == 0 then Completed
    else if script == [] then (if need <= left then Completed else if left > 0 then Threw else Starved)
    else
      match script[0]
      case Deliver =>
        if left == 0 then Fate(script[1..], need, left)
        else if left < need then Threw
        else Fate(script[1..], need - 1, left - 1)
      case Partial => Fate(script[1..], need, if left > 0 then left - 1 else 0)
      case Timeout => Fate(script[1..], need, left)
      case Garbage(_) => Threw
      case Closed => Broken
      case Error => Broken
  }

  /** One event of the script; past its end the channel delivers. */
  lemma FateStep(script: seq<Transport>, k: nat, need: nat, left: nat)
    requires k <= |script| && need > 0
    ensures k == |script| ==>
      Fate(script[k..], need, left) == (if left == 0 then Starved else if left < need then Threw else Fate(script[k..], need - 1, left - 1))
    ensures k < |script| ==> var event := script[k];
      Fate(script[k..], need, left) ==
        if event.Closed? || event.Error? then Broken
        else if event.Garbage? || (event.Deliver? && 0 < left < need) then Threw
        else if event.Deliver? && left >= need then Fate(script[k + 1..], need - 1, left - 1)
        else Fate(script[k + 1..], need, if event.Partial? && left > 0 then left - 1 else left)
  {
    if k < |script| { assert script[k..][1..] == script[k + 1..]; }
  }

  /** As many consecutive messages as the answer has, all from the answer, are the answer. */
  lemma AllTaken(answer: seq<Trade>, before: seq<Trade>, after: seq<Trade>, n: nat)
    requires Consecutive(answer, 0, n) && Consecutive(after, |before|, n)
    requires |after| == |before| + |answer| && after[..|before|] == before
    requires forall i: nat :: |before| <= i < |after| ==> after[i] in answer
    ensures after == before + answer
  {
    forall i: nat | |before| <= i < |after| ensures after[i] == answer[i - |before|] {
      var j: nat :| j < |answer| && answer[j] == after[i];
    }
  }

  lemma {:induction false} ReliableCompletes(script: seq<Transport>, n: nat)
    requires Reliable(script)
    ensures Fate(script, n, n) == Completed
    decreases |script|
  {
    if n > 0 && script != [] {
      assert forall k: nat :: k < |script| - 1 ==> script[1..][k] == script[k + 1];
      ReliableCompletes(script[1..], if script[0].Deliver? then n - 1 else n);
    }
  }

  /** The recovery that message m needs is broken off: closed or failed before all missing messages arrived. */
  predicate BreaksOff(next: nat, m: Trade, script: seq<Transport>) {
    m.sequence > next && Fate(script, m.sequence - next, m.sequence - next).Broken?
  }

  /** What one round does with message m on an honest channel. */
  function OutcomeOf(next: nat, m: Trade, script: seq<Transport>): Outcome {
    if m.sequence < next then Dropped
    else
      var f := if m.sequence == next then Completed else Fate(script, m.sequence - next, m.sequence - next);
      if f.Threw? || f.Starved? then Failed(f) else Forwarded(f)
  }

  /** A whole run on honest channels: it goes on to a next number, halts in a recovery, or corrupts the stream. */
  datatype Course = Goes(next: nat) | Halted | Corrupted

  function CourseOf(next: nat, inputs: seq<Option<Trade>>, scripts: seq<seq<Transport>>): Course
    requires |scripts| == |inputs|
    decreases |inputs|
  {
    if inputs == [] then Goes(next)
    else if inputs[0].None? then CourseOf(next, inputs[1..], scripts[1..])
    else
      match OutcomeOf(next, inputs[0].value, scripts[0])
      case Dropped => CourseOf(next, inputs[1..], scripts[1..])
      case Failed(_) => Halted
      case Forwarded(r) => if r.Broken? then Corrupted else CourseOf(inputs[0].value.sequence + 1, inputs[1..], scripts[1..])
  }

  /** Some forwarded message stands at a position that is not its own. */
  ghost predicate Misplaced(forwarded: seq<Trade>, base: nat) {
    exists w: nat :: w < |forwarded| && forwarded[w].sequence != base + w
  }

  /** Entries from position `from` on carry sequence numbers of at least first, first + 1, and so on. */
  ghost predicate AtLeast(s: seq<Trade>, from: nat, first: nat) {
    forall i: nat :: from <= i < |s| ==> s[i].sequence >= first + (i - from)
  }

  ghost predicate Consecutive(s: seq<Trade>, from: nat, first: nat) {
    forall i: nat :: from <= i < |s| ==> s[i].sequence == first + (i - from)
  }

  /** The multicast channel may lose, repeat and reorder, but not invent. */
  ghost predicate DrawnFrom(m: Trade, store: seq<Trade>) {
    m.sequence < |store| && m == store[m.sequence]
  }

  /** What was forwarded is exactly the store from `base` up to number next. */
  ghost predicate Downstream(store: seq<Trade>, base: nat, next: nat, forwarded: seq<Trade>) {
    Numbered(store) && base <= next <= |store| && forwarded == store[base..next]
  }

  lemma DownstreamExtends(store: seq<Trade>, base: nat, next: nat, forwarded: seq<Trade>, next': nat)
    requires Downstream(store, base, next, forwarded) && next <= next' <= |store|
    ensures Downstream(store, base, next', forwarded + store[next..next'])
  {
    assert store[base..next] + store[next..next'] == store[base..next'];
  }

  /** Forwarding a stored message keeps the stream exact iff it is the expected one. */
  lemma DownstreamNext(store: seq<Trade>, base: nat, next: nat, forwarded: seq<Trade>, m: Trade)
    requires Downstream(store, base, next, forwarded) && DrawnFrom(m, store) && next <= m.sequence
    ensures Downstream(store, base, next + 1, forwarded + [m]) <==> m.sequence == next
  {
    assert store[base..next + 1] == store[base..next] + [store[next]];
    assert (forwarded + [m])[next - base] == m && store[base..next + 1][next - base] == store[next];
  }

  class TradeDataSequencer {
    const server: SnapshotServer
    var nextSequence: nat
    var forwarded: seq<Trade>    // everything enqueued downstream
    var dropped: seq<Trade>      // old messages given back to the pool
    var requests: seq<Request>   // history of gap requests

    constructor (server: SnapshotServer)
      ensures this.server == server && nextSequence == 0 && forwarded == [] && dropped == [] && requests == []
    {
      this.server := server;
      nextSequence, forwarded, dropped, requests := 0, [], [], [];
    }

    /** Downstream has exactly the store from `base` up to the next expected number. */
    ghost predicate Exact(base: nat)
      reads this, server.trades
    {
      Downstream(server.trades.store, base, nextSequence, forwarded)
    }

    /** `setSequenceNum`: processing resumes after a number; an empty stream is exact from there. */
    method SetSequenceNum(sequence: nat)
      modifies this`nextSequence
      ensures nextSequence == sequence + 1
      ensures forwarded == [] && Numbered(server.trades.store) && sequence < |server.trades.store| ==> Exact(sequence + 1)
    {
      nextSequence := sequence + 1;
    }

    method OnRecoveredMsg(m: Trade) returns (ok: bool)
      modifies this`nextSequence, this`forwarded
      ensures ok <==> m.sequence == old(nextSequence)
      ensures nextSequence == old(nextSequence) + (if ok then 1 else 0)
      ensures forwarded == if ok then old(forwarded) + [m] else old(forwarded)
    {
      if m.sequence != nextSequence { return false; }
      forwarded := forwarded + [m];
      nextSequence := nextSequence + 1;
      return true;
    }

    /** What the receive loop does with one event: the message it took, if any, and how it ended, if it did. */
    method Await(event: Transport, answer: seq<Trade>, next: nat) returns (verdict: Option<Recovery>, next': nat, got: Option<Trade>)
      requires next <= |answer|
      modifies this`nextSequence, this`forwarded
      ensures got == match event
        case Deliver => if next < |answer| && answer[next].sequence == old(nextSequence) then Some(answer[next]) else None
        case Garbage(m) => if m.sequence == old(nextSequence) then Some(m) else None
        case _ => None
      ensures forwarded == old(forwarded) + (if got.Some? then [got.value] else [])
      ensures nextSequence == old(nextSequence) + if got.Some? then 1 else 0
      ensures next' == if next < |answer| && (event.Partial? || (event.Deliver? && got.Some?)) then next + 1 else next
      ensures verdict ==
        if event.Closed? || event.Error? then Some(Broken)
        else if got.None? && (event.Garbage? || (event.Deliver? && next < |answer|)) then Some(Threw)
        else None
    {
      verdict, next', got := None, next, None;
      match event {
        case Deliver =>
          if next < |answer| {
            var ok := OnRecoveredMsg(answer[next]);
            if !ok { return Some(Threw), next, None; }
            got, next' := Some(answer[next]), next + 1;
          }
        case Garbage(m) =>
          var ok := OnRecoveredMsg(m);
          if !ok { return Some(Threw), next, None; }
          got := Some(m);
        case Partial => if next < |answer| { next' := next + 1; }
        case Timeout =>
        case Closed => verdict := Some(Broken);
        case Error => verdict := Some(Broken);
      }
    }

    /** The receive loop: it ends with all messages, a break, an exception, or waits for more. */
    method ReceiveRecoveryMessages(start: nat, end: nat, answer: seq<Trade>, script: seq<Transport>) returns (r: Recovery)
      requires start <= end
      modifies this`nextSequence, this`forwarded
      ensures old(forwarded) <= forwarded && Consecutive(forwarded, |old(forwarded)|, old(nextSequence))
      ensures nextSequence - old(nextSequence) == |forwarded| - |old(forwarded)| <= end - start + 1
      ensures r.Completed? <==> nextSequence == old(nextSequence) + (end - start + 1)
      ensures Honest(script) ==> forall i: nat :: |old(forwarded)| <= i < |forwarded| ==> forwarded[i] in answer
      ensures Honest(script) && |answer| == end - start + 1 && Consecutive(answer, 0, old(nextSequence)) ==>
                r == Fate(script, end - start + 1, end - start + 1)
      ensures Reliable(script) && |answer| == end - start + 1 && Consecutive(answer, 0, old(nextSequence)) ==>
                r.Completed? && forwarded == old(forwarded) + answer
    {
      var received, numMessages := 0, end - start + 1;
      var k, next := 0, 0;
      ghost var fair := Honest(script) && |answer| == numMessages && Consecutive(answer, 0, nextSequence);
      assert script[0..] == script;
      if Reliable(script) { ReliableCompletes(script, numMessages); }
      while received < numMessages
        invariant 0 <= received <= numMessages && k <= |script| && next <= |answer|
        invariant |forwarded| == |old(forwarded)| + received && nextSequence == old(nextSequence) + received
        invariant forwarded[..|old(forwarded)|] == old(forwarded)
        invariant Consecutive(forwarded, |old(forwarded)|, old(nextSequence))
        invariant Honest(script) ==> forall i: nat :: |old(forwarded)| <= i < |forwarded| ==> forwarded[i] in answer
        invariant fair ==> received <= next
        invariant fair ==> Fate(script, numMessages, numMessages) == Fate(script[k..], numMessages - received, numMessages - next)
        decreases |script| - k + |answer| - next
      {
        if fair { FateStep(script, k, numMessages - received, numMessages - next); }
        var event := Deliver;
        if k < |script| {
          event := script[k];
          k := k + 1;
        } else if next == |answer| {
          return Starved;
        }
        var verdict, got;
        verdict, next, got := Await(event, answer, next);
        if verdict.Some? { return verdict.value; }
        if got.Some? { received := received + 1; }
      }
      if fair { AllTaken(answer, old(forwarded), forwarded, old(nextSequence)); }
      return Completed;
    }

    method Recover(start: nat, end: nat, script: seq<Transport>) returns (r: Recovery)
      requires start <= end
      modifies this`nextSequence, this`forwarded, this`requests
      ensures requests == old(requests) + [Request(start, end)]
      ensures old(forwarded) <= forwarded && Consecutive(forwarded, |old(forwarded)|, old(nextSequence))
      ensures nextSequence - old(nextSequence) == |forwarded| - |old(forwarded)| <= end - start + 1
      ensures r.Completed? <==> nextSequence == old(nextSequence) + (end - start + 1)
      ensures Honest(script) && Numbered(server.trades.store) && start == old(nextSequence) && end < |server.trades.store| ==>
                r == Fate(script, end - start + 1, end - start + 1)
      ensures Reliable(script) && Numbered(server.trades.store) && start == old(nextSequence) && end < |server.trades.store| ==>
                r.Completed? && forwarded == old(forwarded) + server.trades.store[start..end + 1]
      ensures Honest(script) && Numbered(server.trades.store) ==>
                nextSequence <= Max(old(nextSequence), |server.trades.store|) &&
                (old(nextSequence) < nextSequence ==>
                  forwarded == old(forwarded) + server.trades.store[old(nextSequence)..nextSequence])
    {
      requests := requests + [Request(start, end)];
      ghost var store, f, n := server.trades.store, forwarded, nextSequence;
      var answer := server.ServeGapRequest(start, end);
      if Numbered(store) { AnswerConsecutive(store, start, end); }
      r := ReceiveRecoveryMessages(start, end, answer, script);
      if Honest(script) && Numbered(store) && n < nextSequence {
        RecoveredSlice(store, start, end, f, forwarded, n);
      }
    }

    /** The recovery of everything before m: an exact stream stays exact, however it ends. */
    method CloseGap(m: Trade, script: seq<Transport>, ghost base: nat) returns (r: Recovery)
      requires m.sequence > nextSequence
      modifies this`nextSequence, this`forwarded, this`requests
      ensures requests == old(requests) + [Request(old(nextSequence), m.sequence - 1)]
      ensures old(forwarded) <= forwarded && Consecutive(forwarded, |old(forwarded)|, old(nextSequence))
      ensures nextSequence - old(nextSequence) == |forwarded| - |old(forwarded)|
      ensures nextSequence <= m.sequence && (r.Completed? <==> nextSequence == m.sequence)
      ensures old(Exact(base)) && DrawnFrom(m, server.trades.store) && Honest(script) ==>
                Exact(base) && r == Fate(script, m.sequence - old(nextSequence), m.sequence - old(nextSequence))
      ensures old(Exact(base)) && DrawnFrom(m, server.trades.store) && Reliable(script) ==> Exact(base) && r.Completed?
    {
      ghost var store, f, n := server.trades.store, forwarded, nextSequence;
      r := Recover(nextSequence, m.sequence - 1, script);
      if Downstream(store, base, n, f) && n < nextSequence <= |store| && forwarded == f + store[n..nextSequence] {
        DownstreamExtends(store, base, n, f, nextSequence);
      }
    }

    method Forward(m: Trade, ghost base: nat)
      requires nextSequence <= m.sequence
      modifies this`nextSequence, this`forwarded
      ensures forwarded == old(forwarded) + [m] && nextSequence == old(nextSequence) + 1
      ensures old(Exact(base)) && DrawnFrom(m, server.trades.store) ==> (Exact(base) <==> m.sequence == old(nextSequence))
    {
      ghost var store := server.trades.store;
      if Downstream(store, base, nextSequence, forwarded) && DrawnFrom(m, store) {
        DownstreamNext(store, base, nextSequence, forwarded, m);
      }
      forwarded := forwarded + [m];
      nextSequence := nextSequence + 1;
    }

    /** One round of `run` with a message in hand. */
    method Process(m: Trade, script: seq<Transport>, ghost base: nat) returns (outcome: Outcome)
      modifies this
      // whatever the network does
      ensures old(forwarded) <= forwarded && AtLeast(forwarded, |old(forwarded)|, old(nextSequence))
      ensures nextSequence - old(nextSequence) == |forwarded| - |old(forwarded)|
      ensures dropped == if m.sequence < old(nextSequence) then old(dropped) + [m] else old(dropped)
      ensures m.sequence < old(nextSequence) <==> outcome.Dropped?
      ensures outcome.Dropped? ==> nextSequence == old(nextSequence) && forwarded == old(forwarded)
      ensures outcome.Forwarded? ==> forwarded != [] && forwarded[|forwarded| - 1] == m && nextSequence <= m.sequence + 1
      ensures outcome == Forwarded(Broken) <==> outcome.Forwarded? && nextSequence <= m.sequence
      ensures requests == old(requests) +
                (if m.sequence > old(nextSequence) then [Request(old(nextSequence), m.sequence - 1)] else [])
      // the message and the channel decide the outcome, and whether the stream stays exact
      ensures old(Exact(base)) && DrawnFrom(m, server.trades.store) && Honest(script) ==>
                && outcome == OutcomeOf(old(nextSequence), m, script)
                && (Exact(base) <==> !BreaksOff(old(nextSequence), m, script))
                && (BreaksOff(old(nextSequence), m, script) ==> Misplaced(forwarded, base))
      // with a reliable recovery channel
      ensures old(Exact(base)) && DrawnFrom(m, server.trades.store) && Reliable(script) ==>
                Exact(base) && !outcome.Failed? && nextSequence == Max(old(nextSequence), m.sequence + 1)
    {
      var r := Completed;
      if m.sequence > nextSequence {
        r := CloseGap(m, script, base);
        if r.Threw? || r.Starved? { return Failed(r); }
      } else if m.sequence < nextSequence {
        dropped := dropped + [m];
        return Dropped;
      }
      Forward(m, base);
      return Forwarded(r);
    }

    /** What was forwarded since f and n: numbers at least as large as their positions ask for. */
    ghost predicate Since(f: seq<Trade>, n: nat)
      reads this
    {
      f <= forwarded && AtLeast(forwarded, |f|, n) && nextSequence - n == |forwarded| - |f|
    }

    /** `Process` seen from a whole run: an exact stream follows the inputs, a corrupted one stays corrupted. */
    method Round(m: Trade, script: seq<Transport>, ghost base: nat) returns (outcome: Outcome)
      modifies this
      ensures old(forwarded) <= forwarded && AtLeast(forwarded, |old(forwarded)|, old(nextSequence))
      ensures nextSequence - old(nextSequence) == |forwarded| - |old(forwarded)|
      ensures old(requests) <= requests
      ensures DrawnFrom(m, server.trades.store) ==>
                forall k: nat :: |old(requests)| <= k < |requests| ==> Answerable(requests[k], server.trades.store)
      ensures old(Exact(base)) && DrawnFrom(m, server.trades.store) && Honest(script) ==>
                && outcome == OutcomeOf(old(nextSequence), m, script)
                && (if outcome == Forwarded(Broken) then Misplaced(forwarded, base) else Exact(base) && !Misplaced(forwarded, base))
                && (outcome.Dropped? ==> nextSequence == old(nextSequence))
                && (outcome == Forwarded(Completed) ==> nextSequence == m.sequence + 1)
      ensures Misplaced(old(forwarded), base) ==> Misplaced(forwarded, base)
    {
      ghost var f := forwarded;
      outcome := Process(m, script, base);
      if Misplaced(f, base) { MisplacedStays(f, forwarded, base); }
      if Exact(base) { ExactNotMisplaced(server.trades.store, base, nextSequence, forwarded); }
    }

    /** What holds of a run on honest channels that has c0 as its course and c still ahead. */
    ghost predicate OnCourse(base: nat, c0: Course, c: Course)
      reads this, server.trades
    {
      if Misplaced(forwarded, base) then c0.Corrupted? else Exact(base) && c == c0
    }

    /** One turn of the loop, with the course before and after it. */
    method Turn(input: Option<Trade>, script: seq<Transport>, ghost base: nat, ghost c0: Course, ghost inputs: seq<Option<Trade>>, ghost scripts: seq<seq<Transport>>)
      returns (stop: bool)
      requires |scripts| == |inputs|
      modifies this
      ensures old(forwarded) <= forwarded && AtLeast(forwarded, |old(forwarded)|, old(nextSequence))
      ensures nextSequence - old(nextSequence) == |forwarded| - |old(forwarded)|
      ensures old(requests) <= requests
      ensures Drawn(input, server.trades.store) ==>
                forall k: nat :: |old(requests)| <= k < |requests| ==> Answerable(requests[k], server.trades.store)
      ensures Fair(input, script, server.trades.store) && old(OnCourse(base, c0, CourseOf(nextSequence, [input] + inputs, [script] + scripts))) ==>
                if stop then (if Misplaced(forwarded, base) then c0.Corrupted? else Exact(base) && c0.Halted?)
                else OnCourse(base, c0, CourseOf(nextSequence, inputs, scripts))
    {
      assert ([input] + inputs)[1..] == inputs && ([script] + scripts)[1..] == scripts;
      stop := false;
      if input.Some? {
        var outcome := Round(input.value, script, base);
        stop := outcome.Failed?;
      }
    }

    /** The loop of `run`. */
    method Poll(inputs: seq<Option<Trade>>, scripts: seq<seq<Transport>>, ghost base: nat) returns (stop: bool)
      requires |scripts| == |inputs|
      modifies this
      ensures Since(old(forwarded), old(nextSequence)) && |old(requests)| <= |requests|
      ensures (forall i: nat :: i < |inputs| ==> Drawn(inputs[i], server.trades.store)) ==>
                forall k: nat :: |old(requests)| <= k < |requests| ==> Answerable(requests[k], server.trades.store)
      ensures old(Exact(base)) && !Misplaced(old(forwarded), base)
              && (forall i: nat :: i < |inputs| ==> Fair(inputs[i], scripts[i], server.trades.store)) ==>
                OnCourse(base, CourseOf(old(nextSequence), inputs, scripts), if stop then Halted else Goes(nextSequence))
    {
      var i := 0;
      ghost var store := server.trades.store;
      ghost var drawn := forall j: nat :: j < |inputs| ==> Drawn(inputs[j], store);
      ghost var fair := Exact(base) && !Misplaced(forwarded, base) && forall j: nat :: j < |inputs| ==> Fair(inputs[j], scripts[j], store);
      ghost var c0 := CourseOf(nextSequence, inputs, scripts);
      assert inputs[0..] == inputs && scripts[0..] == scripts;
      while i < |inputs|
        invariant 0 <= i <= |inputs|
        invariant Since(old(forwarded), old(nextSequence)) && |old(requests)| <= |requests|
        invariant drawn ==> forall k: nat :: |old(requests)| <= k < |requests| ==> Answerable(requests[k], store)
        invariant fair ==> OnCourse(base, c0, CourseOf(nextSequence, inputs[i..], scripts[i..]))
      {
        assert inputs[i..] == [inputs[i]] + inputs[i + 1..] && scripts[i..] == [scripts[i]] + scripts[i + 1..];
        assert drawn ==> Drawn(inputs[i], store);
        assert fair ==> Fair(inputs[i], scripts[i], store);
        stop := Turn(inputs[i], scripts[i], base, c0, inputs[i + 1..], scripts[i + 1..]);
        if stop { return; }
        i := i + 1;
      }
      stop := false;
    }

    /** `run` over what the receive queue yields (None: empty), until it is stopped or a recovery throws or hangs. */
    method Run(inputs: seq<Option<Trade>>, scripts: seq<seq<Transport>>, ghost base: nat) returns (stoppedEarly: bool)
      requires |scripts| == |inputs|
      modifies this
      // whatever the network does
      ensures old(forwarded) <= forwarded && AtLeast(forwarded, |old(forwarded)|, old(nextSequence))
      ensures nextSequence - old(nextSequence) == |forwarded| - |old(forwarded)|
      // every gap request made for stored messages is answerable in full
      ensures |old(requests)| <= |requests|
      ensures (forall i: nat :: i < |inputs| ==> Drawn(inputs[i], server.trades.store)) ==>
                forall k: nat :: |old(requests)| <= k < |requests| ==> Answerable(requests[k], server.trades.store)
      // on honest channels the inputs decide whether the stream stays exact, and where the run ends
      ensures old(Exact(base)) && (forall i: nat :: i < |inputs| ==> Fair(inputs[i], scripts[i], server.trades.store)) ==>
                var c := CourseOf(old(nextSequence), inputs, scripts);
                && (Exact(base) <==> !c.Corrupted?)
                && (!c.Corrupted? ==> (stoppedEarly <==> c.Halted?))
                && (c.Goes? ==> nextSequence == c.next == NextAfter(old(nextSequence), inputs))
      // with reliable recovery channels
      ensures old(Exact(base)) && (forall i: nat :: i < |inputs| ==> Good(inputs[i], scripts[i], server.trades.store)) ==>
                Exact(base) && !stoppedEarly && nextSequence == NextAfter(old(nextSequence), inputs)
    {
      ghost var store, f, n := server.trades.store, forwarded, nextSequence;
      if Exact(base) { ExactNotMisplaced(store, base, n, f); }
      stoppedEarly := Poll(inputs, scripts, base);
      CourseEnds(n, inputs, scripts, store);
      if forall i: nat :: i < |inputs| ==> Good(inputs[i], scripts[i], store) {
        forall i: nat | i < |inputs| ensures Fair(inputs[i], scripts[i], store) { assert Good(inputs[i], scripts[i], store); }
      }
      if Exact(base) { ExactNotMisplaced(store, base, nextSequence, forwarded); }
    }
  }

  ghost predicate Drawn(input: Option<Trade>, store: seq<Trade>) {
    input.Some? ==> DrawnFrom(input.value, store)
  }

  /** An empty poll, or a stored message together with an honest recovery channel. */
  ghost predicate Fair(input: Option<Trade>, script: seq<Transport>, store: seq<Trade>) {
    input.Some? ==> DrawnFrom(input.value, store) && Honest(script)
  }

  /** A misplaced message stays misplaced, and an exact stream has none. */
  lemma ExactNotMisplaced(store: seq<Trade>, base: nat, next: nat, forwarded: seq<Trade>)
    requires Downstream(store, base, next, forwarded)
    ensures !Misplaced(forwarded, base)
  {
  }

  lemma MisplacedStays(before: seq<Trade>, after: seq<Trade>, base: nat)
    requires before <= after && Misplaced(before, base)
    ensures Misplaced(after, base)
  {
    var w: nat :| w < |before| && before[w].sequence != base + w;
    assert after[w] == before[w];
  }

  /** The next number does not depend on where a stream of polls is cut. */
  lemma {:induction false} NextAfterFront(next: nat, input: Option<Trade>, rest: seq<Option<Trade>>)
    ensures NextAfter(next, [input] + rest) == NextAfter(NextAfter(next, [input]), rest)
    decreases |rest|
  {
    var all := [input] + rest;
    if rest == [] {
      assert all == [input];
    } else {
      assert all[..|all| - 1] == [input] + rest[..|rest| - 1];
      NextAfterFront(next, input, rest[..|rest| - 1]);
    }
  }

  /** A run that goes on ends one above the greatest number processed; reliable channels let every run go on. */
  lemma {:induction false} CourseEnds(next: nat, inputs: seq<Option<Trade>>, scripts: seq<seq<Transport>>, store: seq<Trade>)
    requires |scripts| == |inputs|
    ensures CourseOf(next, inputs, scripts).Goes? ==> CourseOf(next, inputs, scripts).next == NextAfter(next, inputs)
    ensures (forall i: nat :: i < |inputs| ==> Good(inputs[i], scripts[i], store)) ==> CourseOf(next, inputs, scripts).Goes?
    decreases |inputs|
  {
    if inputs != [] {
      var one := NextAfter(next, [inputs[0]]);
      assert inputs == [inputs[0]] + inputs[1..] && [inputs[0]][..0] == [];
      NextAfterFront(next, inputs[0], inputs[1..]);
      CourseEnds(one, inputs[1..], scripts[1..], store);
      if forall i: nat :: i < |inputs| ==> Good(inputs[i], scripts[i], store) {
        assert Good(inputs[0], scripts[0], store);
        forall i: nat | i < |inputs| - 1 ensures Good(inputs[1..][i], scripts[1..][i], store) { assert Good(inputs[i + 1], scripts[i + 1], store); }
        if inputs[0].Some? && inputs[0].value.sequence > next {
          ReliableCompletes(scripts[0], inputs[0].value.sequence - next);
        }
      }
    }
  }

  /** One delivery, then a closed connection, while two messages are missing. */
  lemma BrokenCourse(m: Trade)
    requires m.sequence == 2
    ensures Honest([Deliver, Closed]) && BreaksOff(0, m, [Deliver, Closed])
    ensures CourseOf(0, [Some(m)], [[Deliver, Closed]]) == Corrupted
  {
    assert [Deliver, Closed][1..] == [Closed];
    assert Fate([Closed], 1, 1) == Broken;
  }

  /** A failing input end to end: three stored trades, only the last received, its recovery closed half-way. */
  method BrokenRecovery(lines: seq<Trade>) returns (q: TradeDataSequencer)
    requires |lines| == 3
    ensures q.server.trades.store == Renumbered(lines)
    ensures q.nextSequence <= 2 && q.forwarded != [] && q.forwarded[|q.forwarded| - 1] == Renumbered(lines)[2]
    ensures Misplaced(q.forwarded, 0) && !q.Exact(0)
  {
    var trades := new TradeMsgStore.FromFile(lines);
    var server := new SnapshotServer(trades);
    q := new TradeDataSequencer(server);
    var m := trades.store[2];
    BrokenCourse(m);
    var outcome := q.Process(m, [Deliver, Closed], 0);
  }

  /** A request inside a numbered store is answered in full, in order. */
  lemma AnswerConsecutive(store: seq<Trade>, start: nat, end: nat)
    requires Numbered(store) && start <= end
    ensures Consecutive(Available(store, start, end), 0, start)
    ensures end < |store| ==> |Available(store, start, end)| == end - start + 1 && Available(store, start, end) == store[start..end + 1]
  {
  }

  lemma AnsweredFromStore(store: seq<Trade>, start: nat, end: nat, m: Trade)
    requires Numbered(store) && m in Available(store, start, end)
    ensures DrawnFrom(m, store)
  {
  }

  /** Consecutive messages that all come from a numbered store are a slice of it. */
  lemma RecoveredSlice(store: seq<Trade>, start: nat, end: nat, before: seq<Trade>, after: seq<Trade>, n: nat)
    requires Numbered(store) && before < after && Consecutive(after, |before|, n)
    requires forall i: nat :: |before| <= i < |after| ==> after[i] in Available(store, start, end)
    ensures n + |after| - |before| <= |store| && after == before + store[n..n + |after| - |before|]
  {
    forall i: nat | |before| <= i < |after| ensures DrawnFrom(after[i], store) && after[i].sequence == n + (i - |before|) {
      AnsweredFromStore(store, start, end, after[i]);
    }
    assert DrawnFrom(after[|after| - 1], store);
  }

  function Max(a: nat, b: nat): nat {
    if a < b then b else a
  }

  /** An empty poll, or a stored message together with a reliable recovery channel. */
  ghost predicate Good(input: Option<Trade>, script: seq<Transport>, store: seq<Trade>) {
    input.Some? ==> DrawnFrom(input.value, store) && Reliable(script)
  }

  /** The request lies in the store, and its answer is as long as the receive loop waits for. */
  ghost predicate Answerable(r: Request, store: seq<Trade>) {
    r.start <= r.end < |store| && |Available(store, r.start, r.end)| == r.end - r.start + 1
  }

  /** The next expected number after a stream of polls. */
  function NextAfter(next: nat, inputs: seq<Option<Trade>>): nat {
    if inputs == [] then next else
    var n := NextAfter(next, inputs[..|inputs| - 1]);
    var last := inputs[|inputs| - 1];
    if last.Some? then Max(n, last.value.sequence + 1) else n
  }

  /** It is one more than the greatest number processed, or the start if none was as large. */
  lemma {:induction false} NextAfterIsMax(next: nat, inputs: seq<Option<Trade>>)
    ensures NextAfter(next, inputs) >= next
    ensures forall i: nat :: i < |inputs| && inputs[i].Some? ==> inputs[i].value.sequence < NextAfter(next, inputs)
    ensures NextAfter(next, inputs) == next ||
            exists i: nat :: i < |inputs| && inputs[i].Some? && inputs[i].value.sequence + 1 == NextAfter(next, inputs)
  {
    if inputs != [] {
      var k := |inputs| - 1;
      var front := inputs[..k];
      NextAfterIsMax(next, front);
      assert forall i: nat :: i < k ==> inputs[i] == front[i];
      var n := NextAfter(next, front);
      if NextAfter(next, inputs) == n && n != next {
        var i: nat :| i < |front| && front[i].Some? && front[i].value.sequence + 1 == n;
        assert inputs[i] == front[i];
      }
    }
  }
}
