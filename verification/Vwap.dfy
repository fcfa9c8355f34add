/**
 `AggregatedTradeMQSender` of include/AggTradeMQSender.hpp: volume-weighted
 average prices per symbol and millisecond, over exact reals.
 */
module Vwap {
  import opened Basics

  datatype Trade = Trade(symbol: string, timestamp: nat, price: real, quantity: real)

  datatype Sums = Sums(amount: real, quantity: real)

  /** One published message; None stands for the quotient by a zero quantity. */
  datatype Tick = Tick(symbol: string, time: nat, vwap: Option<real>)

  /** Trades aggregated together under one published time. */
  datatype Bucket = Bucket(time: nat, trades: seq<Trade>)

  // ----- Sums over trades -----

  function Amount(ts: seq<Trade>, s: string): real {
    if ts == [] then 0.0
    else
      var n := |ts| - 1;
      Amount(ts[..n], s) + if ts[n].symbol == s then ts[n].price * ts[n].quantity else 0.0
  }

  function Quantity(ts: seq<Trade>, s: string): real {
    if ts == [] then 0.0
    else
      var n := |ts| - 1;
      Quantity(ts[..n], s) + if ts[n].symbol == s then ts[n].quantity else 0.0
  }

  ghost predicate Occurs(ts: seq<Trade>, s: string) {
    exists i: nat :: i < |ts| && ts[i].symbol == s
  }

  function Average(sums: Sums): Option<real> {
    if sums.quantity == 0.0 then None else Some(sums.amount / sums.quantity)
  }

  lemma {:induction false} SumsAppend(a: seq<Trade>, b: seq<Trade>, s: string)
    ensures Amount(a + b, s) == Amount(a, s) + Amount(b, s)
    ensures Quantity(a + b, s) == Quantity(a, s) + Quantity(b, s)
  {
    if b == [] {
      assert a + b == a;
    } else {
      var n := |b| - 1;
      SumsAppend(a, b[..n], s);
      assert (a + b)[..|a| + n] == a + b[..n];
    }
  }

  lemma Scale(x: real, y: real, q: real)
    requires x <= y && q > 0.0
    ensures x * q <= y * q
  {
    assert (y - x) * q >= 0.0;
  }

  lemma StepBounds(a: real, total: real, p: real, q: real, lo: real, hi: real, a': real, total': real)
    requires lo * total <= a <= hi * total && lo <= p <= hi && q > 0.0
    requires a' == a + p * q && total' == total + q
    ensures lo * total' <= a' <= hi * total'
  {
    Scale(lo, p, q);
    Scale(p, hi, q);
    assert lo * total' == lo * total + lo * q;
    assert hi * total' == hi * total + hi * q;
  }

  ghost predicate Between(ts: seq<Trade>, s: string, lo: real, hi: real) {
    lo * Quantity(ts, s) <= Amount(ts, s) <= hi * Quantity(ts, s)
  }

  lemma BetweenStep(ts: seq<Trade>, s: string, lo: real, hi: real)
    requires ts != [] && Between(ts[..|ts| - 1], s, lo, hi)
    requires var t := ts[|ts| - 1]; t.symbol == s ==> t.quantity > 0.0 && lo <= t.price <= hi
    ensures Between(ts, s, lo, hi)
  {
    var front, t := ts[..|ts| - 1], ts[|ts| - 1];
    if t.symbol == s {
      StepBounds(Amount(front, s), Quantity(front, s), t.price, t.quantity, lo, hi, Amount(ts, s), Quantity(ts, s));
    }
  }

  lemma {:induction false} WeightedBounds(ts: seq<Trade>, s: string, lo: real, hi: real)
    requires forall i: nat :: i < |ts| && ts[i].symbol == s ==> ts[i].quantity > 0.0 && lo <= ts[i].price <= hi
    ensures Between(ts, s, lo, hi)
  {
    if ts != [] {
      var n := |ts| - 1;
      assert forall i: nat :: i < n ==> ts[..n][i] == ts[i];
      WeightedBounds(ts[..n], s, lo, hi);
      BetweenStep(ts, s, lo, hi);
    }
  }

  lemma {:induction false} PositiveQuantity(ts: seq<Trade>, s: string)
    requires forall i: nat :: i < |ts| && ts[i].symbol == s ==> ts[i].quantity > 0.0
    ensures Quantity(ts, s) >= 0.0 && (Occurs(ts, s) ==> Quantity(ts, s) > 0.0)
  {
    if ts != [] {
      var n := |ts| - 1;
      assert forall i: nat :: i < n ==> ts[..n][i] == ts[i];
      PositiveQuantity(ts[..n], s);
      if ts[n].symbol != s && Occurs(ts, s) {
        var i: nat :| i < |ts| && ts[i].symbol == s;
        assert ts[..n][i].symbol == s;
      }
    }
  }

  lemma QuotientBounds(a: real, q: real, lo: real, hi: real)
    requires q > 0.0 && lo * q <= a <= hi * q
    ensures lo <= a / q <= hi
  {
    var v := a / q;
    assert v * q == a;
    assert v < lo ==> (lo - v) * q > 0.0;
    assert v > hi ==> (v - hi) * q > 0.0;
  }

  lemma AverageOf(ts: seq<Trade>, s: string, lo: real, hi: real)
    requires Quantity(ts, s) > 0.0 && Between(ts, s, lo, hi)
    ensures var v := Average(Sums(Amount(ts, s), Quantity(ts, s))); v.Some? && lo <= v.value <= hi
  {
    QuotientBounds(Amount(ts, s), Quantity(ts, s), lo, hi);
  }

  /** With positive quantities a published average lies between the least and the greatest price it covers. */
  lemma AverageWithinPrices(ts: seq<Trade>, s: string, lo: real, hi: real)
    requires Occurs(ts, s)
    requires forall i: nat :: i < |ts| && ts[i].symbol == s ==> ts[i].quantity > 0.0 && lo <= ts[i].price <= hi
    ensures Average(Sums(Amount(ts, s), Quantity(ts, s))).Some?
    ensures lo <= Average(Sums(Amount(ts, s), Quantity(ts, s))).value <= hi
  {
    WeightedBounds(ts, s, lo, hi);
    PositiveQuantity(ts, s);
    AverageOf(ts, s, lo, hi);
  }

  // ----- Buckets -----

  function Flatten(bs: seq<Bucket>): seq<Trade> {
    if bs == [] then [] else Flatten(bs[..|bs| - 1]) + bs[|bs| - 1].trades
  }

  ghost predicate SameTime(ts: seq<Trade>, time: nat) {
    forall i: nat :: i < |ts| ==> ts[i].timestamp / 1000 == time
  }

  /**
   The buckets are the maximal runs of trades of one millisecond: each is
   uniform, neighbours differ, and only the first, which belongs to the time at
   which the sender was created, can be empty.
   */
  ghost predicate MaximalRuns(bs: seq<Bucket>) {
    && (forall i: nat {:trigger bs[i]} :: i < |bs| ==> SameTime(bs[i].trades, bs[i].time) && (i > 0 ==> bs[i].trades != []))
    && (forall i: nat, j: nat {:trigger bs[i], bs[j]} :: j == i + 1 && j < |bs| ==> bs[i].time != bs[j].time)
  }

  /** A trade of the current millisecond joins the open bucket; any other closes it and opens the next. */
  lemma RunsExtend(bs: seq<Bucket>, time: nat, pending: seq<Trade>, t: Trade)
    requires MaximalRuns(bs + [Bucket(time, pending)])
    ensures t.timestamp / 1000 == time ==> MaximalRuns(bs + [Bucket(time, pending + [t])])
    ensures t.timestamp / 1000 != time ==> MaximalRuns(bs + [Bucket(time, pending)] + [Bucket(t.timestamp / 1000, [t])])
  {
    var all, n := bs + [Bucket(time, pending)], |bs|;
    assert all[n] == Bucket(time, pending) && forall i: nat {:trigger bs[i]} :: i < n ==> all[i] == bs[i];
    if t.timestamp / 1000 == time {
      var same := bs + [Bucket(time, pending + [t])];
      forall i: nat {:trigger same[i]} | i < |same| ensures SameTime(same[i].trades, same[i].time) && (i > 0 ==> same[i].trades != []) {
        assert i < n ==> same[i] == all[i];
      }
      forall i: nat, j: nat {:trigger same[i], same[j]} | j == i + 1 && j < |same| ensures same[i].time != same[j].time {
        assert same[i].time == all[i].time && same[j].time == all[j].time;
      }
    }
  }

  lemma RunsDropLast(bs: seq<Bucket>, b: Bucket)
    requires MaximalRuns(bs + [b])
    ensures MaximalRuns(bs)
  {
    assert forall i: nat {:trigger bs[i]} :: i < |bs| ==> (bs + [b])[i] == bs[i];
  }

  ghost predicate Aggregates(m: map<string, Sums>, ts: seq<Trade>) {
    && (forall s: string {:trigger s in m} {:trigger Occurs(ts, s)} :: s in m <==> Occurs(ts, s))
    && (forall s: string {:trigger m[s]} :: s in m ==> m[s] == Sums(Amount(ts, s), Quantity(ts, s)))
  }

  ghost predicate Listed(ticks: seq<Tick>, s: string) {
    exists i: nat :: i < |ticks| && ticks[i].symbol == s
  }

  /** A flush publishes each symbol of its bucket once, with its average. */
  ghost predicate Publishes(ticks: seq<Tick>, b: Bucket) {
    && (forall i: nat :: i < |ticks| ==>
          && Occurs(b.trades, ticks[i].symbol) && ticks[i].time == b.time
          && ticks[i].vwap == Average(Sums(Amount(b.trades, ticks[i].symbol), Quantity(b.trades, ticks[i].symbol))))
    && (forall i: nat, j: nat :: i < j < |ticks| ==> ticks[i].symbol != ticks[j].symbol)
    && (forall s: string {:trigger Occurs(b.trades, s)} :: Occurs(b.trades, s) ==> Listed(ticks, s))
  }

  /** Totals of one symbol over a sequence of buckets. */
  ghost function BucketAmounts(bs: seq<Bucket>, s: string): real {
    if bs == [] then 0.0 else BucketAmounts(bs[..|bs| - 1], s) + Amount(bs[|bs| - 1].trades, s)
  }

  ghost function BucketQuantities(bs: seq<Bucket>, s: string): real {
    if bs == [] then 0.0 else BucketQuantities(bs[..|bs| - 1], s) + Quantity(bs[|bs| - 1].trades, s)
  }

  /** Nothing is lost or counted twice: the buckets' sums add up to the sums over all trades. */
  lemma {:induction false} Conservation(bs: seq<Bucket>, s: string)
    ensures BucketAmounts(bs, s) == Amount(Flatten(bs), s)
    ensures BucketQuantities(bs, s) == Quantity(Flatten(bs), s)
  {
    if bs != [] {
      var n := |bs| - 1;
      Conservation(bs[..n], s);
      SumsAppend(Flatten(bs[..n]), bs[n].trades, s);
    }
  }

  lemma AggregatesSome(m: map<string, Sums>, ts: seq<Trade>)
    requires Aggregates(m, ts)
    ensures ts != [] ==> m != map[]
  {
    if ts != [] {
      assert Occurs(ts, ts[0].symbol);
      assert ts[0].symbol in m;
    }
  }

  lemma OccursAppend(ts: seq<Trade>, t: Trade, s: string)
    ensures Occurs(ts + [t], s) <==> s == t.symbol || Occurs(ts, s)
  {
    var ts' := ts + [t];
    assert ts'[|ts|] == t;
    if Occurs(ts, s) {
      var i: nat :| i < |ts| && ts[i].symbol == s;
      assert ts'[i].symbol == s;
    }
    if Occurs(ts', s) && s != t.symbol {
      var i: nat :| i < |ts'| && ts'[i].symbol == s;
      assert ts[i].symbol == s;
    }
  }

  lemma SumsStep(ts: seq<Trade>, t: Trade, s: string)
    ensures Amount(ts + [t], s) == Amount(ts, s) + if t.symbol == s then t.price * t.quantity else 0.0
    ensures Quantity(ts + [t], s) == Quantity(ts, s) + if t.symbol == s then t.quantity else 0.0
  {
    assert (ts + [t])[..|ts|] == ts;
  }

  lemma AggregateOne(m: map<string, Sums>, ts: seq<Trade>, t: Trade, m': map<string, Sums>)
    requires Aggregates(m, ts)
    requires var before := if t.symbol in m then m[t.symbol] else Sums(0.0, 0.0);
      m' == m[t.symbol := Sums(before.amount + t.price * t.quantity, before.quantity + t.quantity)]
    ensures Aggregates(m', ts + [t])
  {
    var ts' := ts + [t];
    forall s: string ensures s in m' <==> Occurs(ts', s) { OccursAppend(ts, t, s); }
    if !Occurs(ts, t.symbol) { NoTrades(ts, t.symbol); }
    forall s: string | s in m' ensures m'[s] == Sums(Amount(ts', s), Quantity(ts', s)) { SumsStep(ts, t, s); }
  }

  lemma {:induction false} NoTrades(ts: seq<Trade>, s: string)
    requires !Occurs(ts, s)
    ensures Amount(ts, s) == 0.0 && Quantity(ts, s) == 0.0
  {
    if ts != [] {
      var n := |ts| - 1;
      assert forall i: nat :: i < n ==> ts[..n][i].symbol == ts[i].symbol;
      NoTrades(ts[..n], s);
    }
  }

  // ----- The sender -----

  class AggregatedTradeMQSender {
    var currentTime: nat
    var aggMap: map<string, Sums>
    var sentMsgs: nat
    /** What was published, one element per call of `SendMQ`. */
    var flushes: seq<seq<Tick>>
    ghost var buckets: seq<Bucket>
    ghost var pending: seq<Trade>
    ghost var received: seq<Trade>

    /** The buckets so far, followed by the one being filled. */
    ghost function AllBuckets(): seq<Bucket>
      reads this
    {
      buckets + [Bucket(currentTime, pending)]
    }

    /** Every flush published the bucket it closed. */
    ghost predicate Published()
      reads this
    {
      |flushes| == |buckets| && forall i: nat {:trigger flushes[i]} {:trigger buckets[i]} :: i < |flushes| ==> Publishes(flushes[i], buckets[i])
    }

    ghost predicate Valid()
      reads this
    {
      && Published()
      && Aggregates(aggMap, pending)
      && MaximalRuns(AllBuckets())
      && Flatten(buckets) + pending == received
    }

    constructor (now: nat)
      ensures Valid() && received == [] && flushes == [] && currentTime == now
    {
      currentTime, aggMap, sentMsgs, flushes := now, map[], 0, [];
      buckets, pending, received := [], [], [];
    }

    /** Publishes one average per symbol, in any order, and empties the map. */
    method SendMQ()
      requires Published() && Aggregates(aggMap, pending)
      modifies this`aggMap, this`sentMsgs, this`flushes, this`buckets, this`pending
      ensures Published() && aggMap == map[] && pending == []
      ensures buckets == old(buckets) + [Bucket(currentTime, old(pending))] && old(flushes) <= flushes
      ensures sentMsgs == old(sentMsgs) + |old(aggMap)|
    {
      var ticks := CollectTicks(aggMap, currentTime, pending);
      sentMsgs := sentMsgs + |ticks|;
      flushes := flushes + [ticks];
      aggMap := map[];
      buckets := buckets + [Bucket(currentTime, pending)];
      pending := [];
    }

    method AggregateTrade(t: Trade)
      requires Aggregates(aggMap, pending)
      modifies this`aggMap, this`pending, this`received
      ensures Aggregates(aggMap, pending) && pending == old(pending) + [t] && received == old(received) + [t]
    {
      var before := if t.symbol in aggMap then aggMap[t.symbol] else Sums(0.0, 0.0);
      ghost var m := aggMap;
      aggMap := aggMap[t.symbol := Sums(before.amount + t.price * t.quantity, before.quantity + t.quantity)];
      AggregateOne(m, pending, t, aggMap);
      pending := pending + [t];
      received := received + [t];
    }

    /** Closes the open bucket and opens one for msgTime. */
    method NextBucket(msgTime: nat)
      requires Valid()
      modifies this`aggMap, this`sentMsgs, this`flushes, this`buckets, this`pending, this`currentTime
      ensures Published() && Aggregates(aggMap, pending) && pending == [] && currentTime == msgTime
      ensures buckets == old(AllBuckets()) && Flatten(buckets) == received
      ensures old(flushes) <= flushes
    {
      assert AllBuckets()[..|buckets|] == buckets;
      SendMQ();
      currentTime := msgTime;
    }

    /** One message of the `run` loop. */
    method Receive(t: Trade)
      requires Valid()
      modifies this
      ensures Valid() && received == old(received) + [t] && currentTime == t.timestamp / 1000
      ensures old(flushes) <= flushes
      ensures |flushes| == |old(flushes)| + if t.timestamp / 1000 == old(currentTime) then 0 else 1
    {
      RunsExtend(buckets, currentTime, pending, t);
      var msgTime := t.timestamp / 1000;
      if msgTime != currentTime {
        NextBucket(msgTime);
        assert pending + [t] == [t];
      }
      AggregateTrade(t);
    }

    /** The `run` loop over what its dequeues returned until it was stopped. */
    method Run(polls: seq<Option<Trade>>)
      requires Valid()
      modifies this
      ensures Valid() && received == old(received) + Delivered(polls)
    {
      var i := 0;
      while i < |polls|
        invariant i <= |polls| && Valid() && received == old(received) + Delivered(polls[..i])
      {
        assert polls[..i + 1][..i] == polls[..i];
        if polls[i].Some? {
          Receive(polls[i].value);
        }
        i := i + 1;
      }
      assert polls[..i] == polls;
    }

    /** `stop` after the loop: the last bucket is published if it holds anything, and every trade received is in a published bucket. */
    method Stop()
      requires Valid()
      modifies this`aggMap, this`sentMsgs, this`flushes, this`buckets, this`pending
      ensures Published() && MaximalRuns(buckets) && Flatten(buckets) == received
      ensures old(flushes) <= flushes
    {
      assert AllBuckets()[..|buckets|] == buckets;
      if aggMap != map[] {
        SendMQ();
        assert buckets == old(AllBuckets());
      } else {
        AggregatesSome(aggMap, pending);
        RunsDropLast(buckets, Bucket(currentTime, pending));
      }
    }
  }

  /** The messages of one `SendMQ` call: the map is read in an arbitrary order. */
  method CollectTicks(m: map<string, Sums>, time: nat, ghost ts: seq<Trade>) returns (ticks: seq<Tick>)
    requires Aggregates(m, ts)
    ensures Publishes(ticks, Bucket(time, ts)) && |ticks| == |m|
  {
    ticks := [];
    var left := m.Keys;
    while left != {}
      invariant left <= m.Keys && |ticks| + |left| == |m|
      invariant forall i: nat :: i < |ticks| ==>
        && ticks[i].symbol in m && ticks[i].symbol !in left && ticks[i].time == time
        && ticks[i].vwap == Average(m[ticks[i].symbol])
      invariant forall i: nat, j: nat :: i < j < |ticks| ==> ticks[i].symbol != ticks[j].symbol
      invariant forall s {:trigger Listed(ticks, s)} :: s in m && s !in left ==> Listed(ticks, s)
      decreases left
    {
      var s :| s in left;
      ghost var before := ticks;
      ticks := ticks + [Tick(s, time, Average(m[s]))];
      left := left - {s};
      forall x {:trigger Listed(ticks, x)} | x in m && x !in left ensures Listed(ticks, x) {
        if x == s {
          assert ticks[|before|].symbol == s;
        } else {
          assert Listed(before, x);
          var i: nat :| i < |before| && before[i].symbol == x;
          assert ticks[i].symbol == x;
        }
      }
    }
  }
}
