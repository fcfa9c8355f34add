/**
 The polling loops of include/DBManager.hpp. A run is given by what its
 dequeues returned until it was stopped; what it did is the log of its commit
 calls and of the messages it gave back to the pool.
 */
module Batching {
  import opened Basics

  datatype Event<T> = Commit(rows: seq<T>) | Free(msg: T)

  /** All rows of the commit calls, in order. */
  function Rows<T>(log: seq<Event<T>>): seq<T> {
    if log == [] then []
    else
      var n := |log| - 1;
      Rows(log[..n]) + if log[n].Commit? then log[n].rows else []
  }

  /** All messages given back to the pool, in order. */
  function Frees<T>(log: seq<Event<T>>): seq<T> {
    if log == [] then []
    else
      var n := |log| - 1;
      Frees(log[..n]) + if log[n].Free? then [log[n].msg] else []
  }

  ghost predicate CommittedSoFar<T>(log: seq<Event<T>>, n: nat)
    requires n <= |log|
  {
    Frees(log[..n]) <= Rows(log[..n])
  }

  /** At every moment only messages whose commit call has been made are back in the pool. */
  ghost predicate CommitFirst<T>(log: seq<Event<T>>) {
    forall n: nat {:trigger CommittedSoFar(log, n)} :: n <= |log| ==> CommittedSoFar(log, n)
  }

  /** Every commit call carries between one and `most` rows. */
  ghost predicate BatchSizes<T>(log: seq<Event<T>>, most: nat) {
    forall i: nat :: i < |log| && log[i].Commit? ==> 0 < |log[i].rows| <= most
  }

  function AtLeastOne(n: nat): nat {
    if n == 0 then 1 else n
  }

  lemma Extend<T>(log: seq<Event<T>>, e: Event<T>)
    ensures Rows(log + [e]) == Rows(log) + if e.Commit? then e.rows else []
    ensures Frees(log + [e]) == Frees(log) + if e.Free? then [e.msg] else []
  {
    assert (log + [e])[..|log|] == log;
  }

  lemma ExtendCommitFirst<T>(log: seq<Event<T>>, e: Event<T>)
    requires CommitFirst(log) && Frees(log + [e]) <= Rows(log + [e])
    ensures CommitFirst(log + [e])
  {
    var log' := log + [e];
    forall n: nat {:trigger CommittedSoFar(log', n)} | n <= |log'| ensures CommittedSoFar(log', n) {
      if n <= |log| {
        assert log'[..n] == log[..n] && CommittedSoFar(log, n);
      } else {
        assert log'[..n] == log';
      }
    }
  }

  /** What both kinds of loop keep between commits. */
  ghost predicate Kept<T>(log: seq<Event<T>>, destroy: bool, most: nat) {
    && CommitFirst(log) && BatchSizes(log, most)
    && Frees(log) == if destroy then Rows(log) else []
  }

  /** Gives a committed batch back to the pool. */
  method Release<T>(log: seq<Event<T>>, batch: seq<T>, ghost most: nat) returns (log': seq<Event<T>>)
    requires CommitFirst(log) && BatchSizes(log, most) && Frees(log) + batch == Rows(log)
    ensures Kept(log', true, most) && Rows(log') == Rows(log) && log <= log'
    ensures forall p: nat :: |log| <= p < |log'| ==> log'[p].Free?
  {
    log' := log;
    var i := 0;
    while i < |batch|
      invariant i <= |batch|
      invariant CommitFirst(log') && BatchSizes(log', most) && log <= log'
      invariant Rows(log') == Rows(log) && Frees(log') + batch[i..] == Rows(log)
      invariant forall p: nat :: |log| <= p < |log'| ==> log'[p].Free?
    {
      Extend(log', Free(batch[i]));
      assert batch[i..] == [batch[i]] + batch[i + 1..];
      ExtendCommitFirst(log', Free(batch[i]));
      log' := log' + [Free(batch[i])];
      i := i + 1;
    }
  }

  /** One commit call followed by the release of its batch. */
  method Flush<T>(log: seq<Event<T>>, batch: seq<T>, destroy: bool, ghost most: nat) returns (log': seq<Event<T>>)
    requires Kept(log, destroy, most) && 0 < |batch| <= most
    ensures Kept(log', destroy, most) && Rows(log') == Rows(log) + batch && log <= log'
    ensures |log| < |log'| && log'[|log|] == Commit(batch) && forall p: nat :: |log| < p < |log'| ==> log'[p].Free?
  {
    log' := log + [Commit(batch)];
    Extend(log, Commit(batch));
    ExtendCommitFirst(log, Commit(batch));
    if destroy {
      log' := Release(log', batch, most);
    }
  }

  /** `runSingle`: one commit call and one release per message. */
  method RunSingle<T>(polls: seq<Option<T>>, destroy: bool) returns (log: seq<Event<T>>)
    ensures Rows(log) == Delivered(polls) && Frees(log) == (if destroy then Delivered(polls) else [])
    ensures CommitFirst(log) && BatchSizes(log, 1)
  {
    log := [];
    var i := 0;
    while i < |polls|
      invariant i <= |polls| && Kept(log, destroy, 1) && Rows(log) == Delivered(polls[..i])
    {
      assert polls[..i + 1][..i] == polls[..i];
      if polls[i].Some? {
        log := Flush(log, [polls[i].value], destroy, 1);
      }
      i := i + 1;
    }
    assert polls[..i] == polls;
  }

  /** Every commit call from position `from` on carries a full batch. */
  ghost predicate FullFrom<T>(log: seq<Event<T>>, from: nat, batchSize: nat) {
    forall p: nat :: from <= p < |log| && log[p].Commit? ==> |log[p].rows| == AtLeastOne(batchSize)
  }

  /** One turn of the batching loops. */
  method Turn<T>(log: seq<Event<T>>, batch: seq<T>, poll: Option<T>, batchSize: nat, destroy: bool)
    returns (log': seq<Event<T>>, batch': seq<T>)
    requires Kept(log, destroy, AtLeastOne(batchSize)) && |batch| < AtLeastOne(batchSize)
    ensures Kept(log', destroy, AtLeastOne(batchSize)) && |batch'| < AtLeastOne(batchSize) && log <= log'
    ensures Rows(log') + batch' == Rows(log) + batch + if poll.Some? then [poll.value] else []
    ensures poll.None? ==> batch' == []
    ensures poll.Some? ==> FullFrom(log', |log|, batchSize)
  {
    log', batch' := log, batch;
    if poll.None? {
      if batch' != [] {
        log' := Flush(log', batch', destroy, AtLeastOne(batchSize));
        batch' := [];
      }
    } else {
      batch' := batch' + [poll.value];
      if |batch'| >= batchSize {
        log' := Flush(log', batch', destroy, AtLeastOne(batchSize));
        batch' := [];
      }
    }
  }

  /** What holds after i dequeues. */
  ghost predicate Polled<T>(polls: seq<Option<T>>, i: nat, log: seq<Event<T>>, batch: seq<T>, marks: seq<nat>, batchSize: nat, destroy: bool) {
    && i <= |polls| && |marks| == i && |batch| < AtLeastOne(batchSize)
    && Kept(log, destroy, AtLeastOne(batchSize)) && Rows(log) + batch == Delivered(polls[..i])
    && AllTimely(polls, log, batchSize, marks) && FullWhenBusy(polls, log, batchSize, marks)
    && MarkBefore(marks, i) == |log|
  }

  method PollOnce<T>(polls: seq<Option<T>>, i: nat, log: seq<Event<T>>, batch: seq<T>, ghost marks: seq<nat>, batchSize: nat, destroy: bool)
    returns (log': seq<Event<T>>, batch': seq<T>, ghost marks': seq<nat>)
    requires i < |polls| && Polled(polls, i, log, batch, marks, batchSize, destroy)
    ensures Polled(polls, i + 1, log', batch', marks', batchSize, destroy)
  {
    log', batch' := Turn(log, batch, polls[i], batchSize, destroy);
    TurnTimely(polls, log, batch, log', batch', batchSize, i, marks);
    TurnBusy(polls, log, log', batchSize, marks);
    marks' := marks + [|log'|];
  }

  /** The batching loop up to the stop. */
  method PollAll<T>(polls: seq<Option<T>>, batchSize: nat, destroy: bool)
    returns (log: seq<Event<T>>, batch: seq<T>, ghost marks: seq<nat>)
    ensures Kept(log, destroy, AtLeastOne(batchSize)) && |batch| < AtLeastOne(batchSize)
    ensures Rows(log) + batch == Delivered(polls) && |marks| == |polls| && AllTimely(polls, log, batchSize, marks)
    ensures FullWhenBusy(polls, log, batchSize, marks)
  {
    log, batch, marks := [], [], [];
    var i := 0;
    while i < |polls|
      invariant Polled(polls, i, log, batch, marks, batchSize, destroy)
    {
      log, batch, marks := PollOnce(polls, i, log, batch, marks, batchSize, destroy);
      i := i + 1;
    }
    assert polls[..i] == polls;
  }

  /**
   `runBatch` and `runCopy`. The rows committed are those that `runSingle`
   commits for the same dequeues; batches are never empty and never exceed the
   batch size; every message is released once and only after its commit call;
   and `marks`, the length of the log after each dequeue, shows how far the
   commits may lag: less than one batch, and not at all after an empty poll; a
   batch that is not full is committed only at an empty poll or at the stop.
   */
  method RunBatched<T>(polls: seq<Option<T>>, batchSize: nat, destroy: bool) returns (log: seq<Event<T>>, ghost marks: seq<nat>)
    ensures Rows(log) == Delivered(polls) && Frees(log) == (if destroy then Delivered(polls) else [])
    ensures CommitFirst(log) && BatchSizes(log, AtLeastOne(batchSize))
    ensures |marks| == |polls| && AllTimely(polls, log, batchSize, marks) && FullWhenBusy(polls, log, batchSize, marks)
  {
    var batch;
    log, batch, marks := PollAll(polls, batchSize, destroy);
    if batch != [] {
      ghost var before := log;
      log := Flush(log, batch, destroy, AtLeastOne(batchSize));
      AllTimelyExtend(polls, before, log, batchSize, marks);
      BusyExtends(polls, before, log, batchSize, marks);
    }
  }

  ghost predicate AllTimely<T>(polls: seq<Option<T>>, log: seq<Event<T>>, batchSize: nat, marks: seq<nat>) {
    forall i: nat {:trigger marks[i]} :: i < |marks| ==> Timely(polls, log, batchSize, i, marks[i])
  }

  /** After dequeue i the commits lag by less than a batch, and not at all if the poll was empty. */
  ghost predicate Timely<T>(polls: seq<Option<T>>, log: seq<Event<T>>, batchSize: nat, i: nat, mark: nat) {
    && i < |polls| && mark <= |log|
    && var done, seen := Rows(log[..mark]), Delivered(polls[..i + 1]);
      done <= seen && |seen| - |done| < AtLeastOne(batchSize) && (polls[i].None? ==> done == seen)
  }

  /** Where the log stood before dequeue i. */
  ghost function MarkBefore(marks: seq<nat>, i: nat): nat
    requires i <= |marks|
  {
    if i == 0 then 0 else marks[i - 1]
  }

  /** A commit call made for a message, rather than for an empty poll or the stop, carries a full batch. */
  ghost predicate FullWhenBusy<T>(polls: seq<Option<T>>, log: seq<Event<T>>, batchSize: nat, marks: seq<nat>) {
    |marks| <= |polls| &&
    forall i: nat, p: nat {:trigger marks[i], log[p]} ::
      i < |marks| && polls[i].Some? && MarkBefore(marks, i) <= p < marks[i] && p < |log| && log[p].Commit? ==> |log[p].rows| == AtLeastOne(batchSize)
  }

  lemma BusyExtends<T>(polls: seq<Option<T>>, log: seq<Event<T>>, log': seq<Event<T>>, batchSize: nat, marks: seq<nat>)
    requires FullWhenBusy(polls, log, batchSize, marks) && log <= log'
    requires forall i: nat {:trigger marks[i]} :: i < |marks| ==> marks[i] <= |log|
    ensures FullWhenBusy(polls, log', batchSize, marks)
  {
    forall i: nat, p: nat {:trigger marks[i], log'[p]} |
      i < |marks| && polls[i].Some? && MarkBefore(marks, i) <= p < marks[i] && p < |log'| && log'[p].Commit?
      ensures |log'[p].rows| == AtLeastOne(batchSize)
    {
      assert log'[p] == log[p];
    }
  }

  lemma BusyTurn<T>(polls: seq<Option<T>>, log: seq<Event<T>>, batchSize: nat, marks: seq<nat>)
    requires FullWhenBusy(polls, log, batchSize, marks) && |marks| < |polls|
    requires polls[|marks|].Some? ==> FullFrom(log, MarkBefore(marks, |marks|), batchSize)
    ensures FullWhenBusy(polls, log, batchSize, marks + [|log|])
  {
    var marks' := marks + [|log|];
    forall i: nat, p: nat {:trigger marks'[i], log[p]} |
      i < |marks'| && polls[i].Some? && MarkBefore(marks', i) <= p < marks'[i] && p < |log| && log[p].Commit?
      ensures |log[p].rows| == AtLeastOne(batchSize)
    {
      assert MarkBefore(marks', i) == MarkBefore(marks, i);
      if i < |marks| { assert marks'[i] == marks[i]; }
    }
  }

  lemma TurnBusy<T>(polls: seq<Option<T>>, log: seq<Event<T>>, log': seq<Event<T>>, batchSize: nat, marks: seq<nat>)
    requires FullWhenBusy(polls, log, batchSize, marks) && log <= log' && |marks| < |polls| && AllTimely(polls, log, batchSize, marks)
    requires MarkBefore(marks, |marks|) == |log| && (polls[|marks|].Some? ==> FullFrom(log', |log|, batchSize))
    ensures FullWhenBusy(polls, log', batchSize, marks + [|log'|])
  {
    BusyExtends(polls, log, log', batchSize, marks);
    BusyTurn(polls, log', batchSize, marks);
  }

  lemma TimelyNow<T>(polls: seq<Option<T>>, log: seq<Event<T>>, batchSize: nat, i: nat, batch: seq<T>)
    requires i < |polls| && Rows(log) + batch == Delivered(polls[..i + 1])
    requires |batch| < AtLeastOne(batchSize) && (polls[i].None? ==> batch == [])
    ensures Timely(polls, log, batchSize, i, |log|)
  {
    assert log[..|log|] == log;
  }

  lemma DeliveredStep<T>(polls: seq<Option<T>>, i: nat)
    requires i < |polls|
    ensures Delivered(polls[..i + 1]) == Delivered(polls[..i]) + if polls[i].Some? then [polls[i].value] else []
  {
    assert polls[..i + 1][..i] == polls[..i];
  }

  lemma AddMark<T>(polls: seq<Option<T>>, log: seq<Event<T>>, batchSize: nat, marks: seq<nat>)
    requires AllTimely(polls, log, batchSize, marks) && Timely(polls, log, batchSize, |marks|, |log|)
    ensures AllTimely(polls, log, batchSize, marks + [|log|])
  {
    var marks' := marks + [|log|];
    forall i: nat {:trigger marks'[i]} | i < |marks'| ensures Timely(polls, log, batchSize, i, marks'[i]) {
      assert i < |marks| ==> marks'[i] == marks[i];
    }
  }

  lemma TurnDelivers<T>(polls: seq<Option<T>>, rows: seq<T>, batch: seq<T>, rows': seq<T>, batch': seq<T>, i: nat)
    requires i < |polls| && rows + batch == Delivered(polls[..i])
    requires rows' + batch' == rows + batch + if polls[i].Some? then [polls[i].value] else []
    ensures rows' + batch' == Delivered(polls[..i + 1])
  {
    DeliveredStep(polls, i);
  }

  /** One turn keeps the account of the messages and the marks. */
  lemma TurnTimely<T>(polls: seq<Option<T>>, log: seq<Event<T>>, batch: seq<T>, log': seq<Event<T>>, batch': seq<T>,
                      batchSize: nat, i: nat, marks: seq<nat>)
    requires i < |polls| && |marks| == i && log <= log' && AllTimely(polls, log, batchSize, marks)
    requires Rows(log) + batch == Delivered(polls[..i]) && |batch'| < AtLeastOne(batchSize) && (polls[i].None? ==> batch' == [])
    requires Rows(log') + batch' == Rows(log) + batch + if polls[i].Some? then [polls[i].value] else []
    ensures Rows(log') + batch' == Delivered(polls[..i + 1])
    ensures AllTimely(polls, log', batchSize, marks + [|log'|])
  {
    TurnDelivers(polls, Rows(log), batch, Rows(log'), batch', i);
    AllTimelyExtend(polls, log, log', batchSize, marks);
    TimelyNow(polls, log', batchSize, i, batch');
    AddMark(polls, log', batchSize, marks);
  }

  lemma AllTimelyExtend<T>(polls: seq<Option<T>>, log: seq<Event<T>>, log': seq<Event<T>>, batchSize: nat, marks: seq<nat>)
    requires log <= log' && AllTimely(polls, log, batchSize, marks)
    ensures AllTimely(polls, log', batchSize, marks)
  {
    forall i: nat {:trigger marks[i]} | i < |marks| ensures Timely(polls, log', batchSize, i, marks[i]) {
      assert log'[..marks[i]] == log[..marks[i]];
    }
  }
}
