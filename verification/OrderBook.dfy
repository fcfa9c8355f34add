/**
 `OrderBook<false>` of include/OrderBook.hpp: two arrays of level totals and
 two best-price indices kept incrementally, against the map of live orders.
 Prices enter only through a fixed function to level indices.
 */
module OrderBook {
  import opened Basics

  /** What the book knows of one live order. */
  datatype Live = Live(index: int, quantity: int, isBuy: bool)

  // ----- Totals -----

  function Share(o: Live, isBuy: bool, i: int): int {
    if o.isBuy == isBuy && o.index == i then o.quantity else 0
  }

  /** Sum of the live quantities of one side at one level. */
  ghost function LevelOf(m: map<nat, Live>, isBuy: bool, i: int): int {
    if m == map[] then 0
    else
      var k :| k in m;
      Share(m[k], isBuy, i) + LevelOf(m - {k}, isBuy, i)
  }

  /** The sum does not depend on the order in which the live orders are taken. */
  lemma {:induction false} LevelRemove(m: map<nat, Live>, isBuy: bool, i: int, k: nat)
    requires k in m
    ensures LevelOf(m, isBuy, i) == Share(m[k], isBuy, i) + LevelOf(m - {k}, isBuy, i)
    decreases |m|
  {
    var x :| x in m && LevelOf(m, isBuy, i) == Share(m[x], isBuy, i) + LevelOf(m - {x}, isBuy, i);
    if x != k {
      LevelRemove(m - {x}, isBuy, i, k);
      LevelRemove(m - {k}, isBuy, i, x);
      assert m - {x} - {k} == m - {k} - {x};
    }
  }

  lemma LevelUpdate(m: map<nat, Live>, isBuy: bool, i: int, k: nat, o: Live)
    ensures LevelOf(m[k := o], isBuy, i) ==
            LevelOf(m, isBuy, i) - (if k in m then Share(m[k], isBuy, i) else 0) + Share(o, isBuy, i)
  {
    LevelRemove(m[k := o], isBuy, i, k);
    if k in m {
      LevelRemove(m, isBuy, i, k);
      assert m[k := o] - {k} == m - {k};
    } else {
      assert m[k := o] - {k} == m;
    }
  }

  /** No live order has a negative quantity. */
  ghost predicate NonNegative(m: map<nat, Live>) {
    forall k :: k in m ==> m[k].quantity >= 0
  }

  /** A level is positive iff a live order with a positive quantity rests on it. */
  lemma {:induction false} LevelPositive(m: map<nat, Live>, isBuy: bool, i: int)
    requires NonNegative(m)
    ensures LevelOf(m, isBuy, i) >= 0
    ensures LevelOf(m, isBuy, i) > 0 <==> exists k :: k in m && Share(m[k], isBuy, i) > 0
    decreases |m|
  {
    if m != map[] {
      var x :| x in m && LevelOf(m, isBuy, i) == Share(m[x], isBuy, i) + LevelOf(m - {x}, isBuy, i);
      var rest := m - {x};
      assert m[x].quantity >= 0 && forall k :: k in rest ==> k in m && rest[k] == m[k];
      LevelPositive(rest, isBuy, i);
      if exists k :: k in m && Share(m[k], isBuy, i) > 0 {
        var k :| k in m && Share(m[k], isBuy, i) > 0;
        assert k != x ==> k in rest && Share(rest[k], isBuy, i) > 0;
      }
    }
  }

  /** Every level total is the sum of the live quantities there. */
  ghost predicate TotalsOk(m: map<nat, Live>, bid: seq<int>, ask: seq<int>) {
    && (forall i: nat {:trigger bid[i]} :: i < |bid| ==> bid[i] == LevelOf(m, true, i))
    && (forall i: nat {:trigger ask[i]} :: i < |ask| ==> ask[i] == LevelOf(m, false, i))
  }

  function Add(levels: seq<int>, i: nat, q: int): seq<int>
    requires i < |levels|
  {
    levels[i := levels[i] + q]
  }

  /** The effect on the two sides of adding q at level i of one side. */
  ghost predicate Shifted(bid: seq<int>, ask: seq<int>, isBuy: bool, i: nat, q: int, bid': seq<int>, ask': seq<int>) {
    && |bid| == |ask| && i < |bid|
    && bid' == (if isBuy then Add(bid, i, q) else bid)
    && ask' == (if isBuy then ask else Add(ask, i, q))
  }

  /** Totals after entering an order are right iff the id was free or carried nothing. */
  lemma TotalsAfterInsert(m: map<nat, Live>, bid: seq<int>, ask: seq<int>, k: nat, o: Live, bid': seq<int>, ask': seq<int>)
    requires TotalsOk(m, bid, ask) && o.index >= 0 && Shifted(bid, ask, o.isBuy, o.index, o.quantity, bid', ask')
    requires k in m ==> 0 <= m[k].index < |bid|
    ensures TotalsOk(m[k := o], bid', ask') <==> k !in m || m[k].quantity == 0
  {
    forall i: nat ensures LevelOf(m[k := o], true, i) == LevelOf(m, true, i) - (if k in m then Share(m[k], true, i) else 0) + Share(o, true, i)
    { LevelUpdate(m, true, i, k, o); }
    forall i: nat ensures LevelOf(m[k := o], false, i) == LevelOf(m, false, i) - (if k in m then Share(m[k], false, i) else 0) + Share(o, false, i)
    { LevelUpdate(m, false, i, k, o); }
    if k in m && m[k].quantity != 0 {
      var i: nat := m[k].index;
      assert m[k].isBuy ==> bid'[i] != LevelOf(m[k := o], true, i);
      assert !m[k].isBuy ==> ask'[i] != LevelOf(m[k := o], false, i);
    }
  }

  /** Totals after a quantity change follow the order. */
  lemma TotalsAfterUpdate(m: map<nat, Live>, bid: seq<int>, ask: seq<int>, k: nat, q: int, bid': seq<int>, ask': seq<int>)
    requires TotalsOk(m, bid, ask) && k in m && m[k].index >= 0
    requires Shifted(bid, ask, m[k].isBuy, m[k].index, q - m[k].quantity, bid', ask')
    ensures TotalsOk(m[k := m[k].(quantity := q)], bid', ask')
  {
    var o := m[k].(quantity := q);
    forall i: nat ensures LevelOf(m[k := o], true, i) == LevelOf(m, true, i) - Share(m[k], true, i) + Share(o, true, i)
    { LevelUpdate(m, true, i, k, o); }
    forall i: nat ensures LevelOf(m[k := o], false, i) == LevelOf(m, false, i) - Share(m[k], false, i) + Share(o, false, i)
    { LevelUpdate(m, false, i, k, o); }
  }

  /** Totals after a cancellation lose the order. */
  lemma TotalsAfterCancel(m: map<nat, Live>, bid: seq<int>, ask: seq<int>, k: nat, bid': seq<int>, ask': seq<int>)
    requires TotalsOk(m, bid, ask) && k in m && m[k].index >= 0
    requires Shifted(bid, ask, m[k].isBuy, m[k].index, -m[k].quantity, bid', ask')
    ensures TotalsOk(m - {k}, bid', ask')
  {
    forall i: nat ensures LevelOf(m, true, i) == Share(m[k], true, i) + LevelOf(m - {k}, true, i) { LevelRemove(m, true, i, k); }
    forall i: nat ensures LevelOf(m, false, i) == Share(m[k], false, i) + LevelOf(m - {k}, false, i) { LevelRemove(m, false, i, k); }
  }

  // ----- Best prices -----

  /**
   The best bid is the highest positive level. On an empty side it is -1 (never
   used) or 0 (emptied).
   */
  ghost predicate BestBid(levels: seq<int>, best: int) {
    && -1 <= best < |levels|
    && (forall i: nat :: best < i < |levels| ==> levels[i] == 0)
    && (best > 0 ==> levels[best] > 0)
  }

  /** The best ask is the lowest positive level, or one past the last (never used), or the last (emptied). */
  ghost predicate BestAsk(levels: seq<int>, best: int) {
    && 0 <= best <= |levels|
    && (forall i: nat :: i < best ==> levels[i] == 0)
    && (best < |levels| - 1 ==> levels[best] > 0)
  }

  /** The scan of `updatePriceLevel` below level i. */
  function HighestBelow(levels: seq<int>, i: nat): (r: nat)
    requires i <= |levels|
    ensures forall j: nat :: r < j < i ==> levels[j] <= 0
    ensures r > 0 ==> r < i && levels[r] > 0
  {
    if i == 0 then 0 else if levels[i - 1] > 0 then i - 1 else HighestBelow(levels, i - 1)
  }

  /** The scan of `updatePriceLevel` from level i upwards. */
  function LowestFrom(levels: seq<int>, i: nat): (r: int)
    requires i <= |levels|
    ensures forall j: nat :: i <= j < r && j < |levels| ==> levels[j] <= 0
    ensures r < |levels| && (r < |levels| - 1 ==> r >= i && levels[r] > 0)
    decreases |levels| - i
  {
    if i == |levels| then |levels| - 1 else if levels[i] > 0 then i else LowestFrom(levels, i + 1)
  }

  function NextBid(levels: seq<int>, best: int, i: nat): int
    requires i < |levels|
  {
    if i == best && levels[i] == 0 then HighestBelow(levels, i) else best
  }

  function NextAsk(levels: seq<int>, best: int, i: nat): int
    requires i < |levels|
  {
    if i == best && levels[i] == 0 then LowestFrom(levels, i + 1) else best
  }

  ghost predicate AllNonNegative(levels: seq<int>) {
    forall i: nat :: i < |levels| ==> levels[i] >= 0
  }

  /** Entering a quantity keeps the best bid exact iff it is positive or changes no best price. */
  lemma BidAfterInsert(levels: seq<int>, best: int, i: nat, q: nat)
    requires AllNonNegative(levels) && BestBid(levels, best) && i < |levels|
    ensures BestBid(Add(levels, i, q), if i > best then i else best) <==> q > 0 || i <= best || i == 0
  {
    var b := if i > best then i else best;
    assert i > best ==> Add(levels, i, q)[b] == q;
  }

  lemma AskAfterInsert(levels: seq<int>, best: int, i: nat, q: nat)
    requires AllNonNegative(levels) && BestAsk(levels, best) && i < |levels|
    ensures BestAsk(Add(levels, i, q), if i < best then i else best) <==> q > 0 || i >= best || i == |levels| - 1
  {
    var b := if i < best then i else best;
    assert i < best ==> Add(levels, i, q)[b] == q;
  }

  /** A level change keeps the best bid exact iff it does not make an empty level above it positive. */
  lemma BidAfterChange(levels: seq<int>, best: int, i: nat, q: int)
    requires AllNonNegative(levels) && BestBid(levels, best) && i < |levels| && levels[i] + q >= 0
    ensures BestBid(Add(levels, i, q), NextBid(Add(levels, i, q), best, i)) <==> levels[i] > 0 || levels[i] + q == 0 || i <= best
  {
    var levels' := Add(levels, i, q);
    assert forall j: nat :: j < |levels| && j != i ==> levels'[j] == levels[j];
    assert levels'[i] == levels[i] + q;
  }

  lemma AskAfterChange(levels: seq<int>, best: int, i: nat, q: int)
    requires AllNonNegative(levels) && BestAsk(levels, best) && i < |levels| && levels[i] + q >= 0
    ensures BestAsk(Add(levels, i, q), NextAsk(Add(levels, i, q), best, i)) <==> levels[i] > 0 || levels[i] + q == 0 || i >= best
  {
    var levels' := Add(levels, i, q);
    assert forall j: nat :: j < |levels| && j != i ==> levels'[j] == levels[j];
    assert levels'[i] == levels[i] + q;
  }

  /** Whenever a buy order with a positive quantity is live, the best bid is the greatest price of such orders. */
  lemma BestBidIsMaximum(m: map<nat, Live>, bid: seq<int>, ask: seq<int>, best: int, k: nat)
    requires NonNegative(m) && TotalsOk(m, bid, ask) && BestBid(bid, best)
    requires k in m && m[k].isBuy && m[k].quantity > 0 && 0 <= m[k].index < |bid|
    ensures m[k].index <= best && bid[best] > 0
    ensures exists x :: x in m && m[x].isBuy && m[x].quantity > 0 && m[x].index == best
  {
    LevelPositive(m, true, m[k].index);
    assert Share(m[k], true, m[k].index) > 0 && bid[m[k].index] > 0;
    LevelPositive(m, true, best);
    var x :| x in m && Share(m[x], true, best) > 0;
  }

  /** Whenever a sell order with a positive quantity is live, the best ask is the least price of such orders. */
  lemma BestAskIsMinimum(m: map<nat, Live>, bid: seq<int>, ask: seq<int>, best: int, k: nat)
    requires NonNegative(m) && TotalsOk(m, bid, ask) && BestAsk(ask, best)
    requires k in m && !m[k].isBuy && m[k].quantity > 0 && 0 <= m[k].index < |ask|
    ensures best <= m[k].index && ask[best] > 0
    ensures exists x :: x in m && !m[x].isBuy && m[x].quantity > 0 && m[x].index == best
  {
    LevelPositive(m, false, m[k].index);
    assert Share(m[k], false, m[k].index) > 0 && ask[m[k].index] > 0;
    LevelPositive(m, false, best);
    var x :| x in m && Share(m[x], false, best) > 0;
  }

  // ----- Depth -----

  datatype Level = Level(index: int, quantity: int)

  /** All positive levels below hi, highest first. */
  function Downwards(levels: seq<int>, hi: nat): seq<Level>
    requires hi <= |levels|
  {
    if hi == 0 then []
    else (if levels[hi - 1] > 0 then [Level(hi - 1, levels[hi - 1])] else []) + Downwards(levels, hi - 1)
  }

  /** All positive levels from lo on, lowest first. */
  function Upwards(levels: seq<int>, lo: nat): seq<Level>
    requires lo <= |levels|
    decreases |levels| - lo
  {
    if lo == |levels| then []
    else (if levels[lo] > 0 then [Level(lo, levels[lo])] else []) + Upwards(levels, lo + 1)
  }

  function Take<T>(s: seq<T>, n: nat): (r: seq<T>)
    ensures r <= s && |r| == if n < |s| then n else |s|
  {
    if n < |s| then s[..n] else s
  }

  /** A collection that stopped at its count, or with nothing left, is the first count elements. */
  lemma TakenAll<T>(taken: seq<T>, left: seq<T>, count: nat)
    requires |taken| <= count && (left == [] || |taken| == count)
    ensures Take(taken + left, count) == taken
  {
  }

  function Reverse<T>(s: seq<T>): (r: seq<T>)
    ensures |r| == |s| && forall i: nat :: i < |s| ==> r[i] == s[|s| - 1 - i]
  {
    if s == [] then [] else Reverse(s[1..]) + [s[0]]
  }

  /** The full scan lists exactly the positive levels, in falling price order. */
  lemma {:induction false} DownwardsExact(levels: seq<int>, hi: nat)
    requires hi <= |levels|
    ensures forall l :: l in Downwards(levels, hi) <==> 0 <= l.index < hi && l.quantity == levels[l.index] > 0
    ensures forall i: nat, j: nat :: i < j < |Downwards(levels, hi)| ==> Downwards(levels, hi)[i].index > Downwards(levels, hi)[j].index
  {
    if hi > 0 {
      DownwardsExact(levels, hi - 1);
      var rest := Downwards(levels, hi - 1);
      forall i: nat | i < |rest| ensures rest[i].index < hi - 1 { assert rest[i] in rest; }
    }
  }

  lemma {:induction false} UpwardsExact(levels: seq<int>, lo: nat)
    requires lo <= |levels|
    ensures forall l :: l in Upwards(levels, lo) <==> lo <= l.index < |levels| && l.quantity == levels[l.index] > 0
    ensures forall i: nat, j: nat :: i < j < |Upwards(levels, lo)| ==> Upwards(levels, lo)[i].index < Upwards(levels, lo)[j].index
    decreases |levels| - lo
  {
    if lo < |levels| {
      UpwardsExact(levels, lo + 1);
      var rest := Upwards(levels, lo + 1);
      forall i: nat | i < |rest| ensures rest[i].index > lo { assert rest[i] in rest; }
    }
  }

  /** Levels beyond the best bid add nothing to the scan. */
  lemma {:induction false} DownwardsFromBest(levels: seq<int>, best: int, hi: nat)
    requires BestBid(levels, best) && best < hi <= |levels|
    ensures Downwards(levels, hi) == Downwards(levels, best + 1)
  {
    if best + 1 < hi { DownwardsFromBest(levels, best, hi - 1); }
  }

  lemma {:induction false} UpwardsFromBest(levels: seq<int>, best: int, lo: nat)
    requires BestAsk(levels, best) && lo <= best
    ensures Upwards(levels, lo) == Upwards(levels, best)
    decreases best - lo
  {
    if lo < best { UpwardsFromBest(levels, best, lo + 1); }
  }

  method CollectDown(a: array<int>, best: int, count: nat) returns (r: seq<Level>)
    requires -1 <= best < a.Length
    ensures r == Take(Downwards(a[..], best + 1), count)
  {
    ghost var levels := a[..];
    var i := best;
    r := [];
    while i >= 0 && |r| < count
      invariant -1 <= i <= best && |r| <= count
      invariant r + Downwards(levels, i + 1) == Downwards(levels, best + 1)
    {
      ghost var before := r;
      if a[i] > 0 {
        r := r + [Level(i, a[i])];
      }
      assert before + Downwards(levels, i + 1) == r + Downwards(levels, i);
      i := i - 1;
    }
    TakenAll(r, Downwards(levels, i + 1), count);
  }

  method CollectUp(a: array<int>, best: int, count: nat) returns (r: seq<Level>)
    requires 0 <= best <= a.Length
    ensures r == Take(Upwards(a[..], best), count)
  {
    ghost var levels := a[..];
    var i := best;
    r := [];
    while i < a.Length && |r| < count
      invariant best <= i <= a.Length && |r| <= count
      invariant r + Upwards(levels, i) == Upwards(levels, best)
    {
      ghost var before := r;
      if a[i] > 0 {
        r := r + [Level(i, a[i])];
      }
      assert before + Upwards(levels, i) == r + Upwards(levels, i + 1);
      i := i + 1;
    }
    TakenAll(r, Upwards(levels, i), count);
  }

  // ----- The scans of `updatePriceLevel` -----

  method ScanDown(a: array<int>, idx: nat) returns (best: int)
    requires idx <= a.Length
    ensures best == HighestBelow(a[..], idx)
  {
    var i := idx;
    while i > 0
      invariant 0 <= i <= idx
      invariant HighestBelow(a[..], idx) == HighestBelow(a[..], i)
    {
      i := i - 1;
      if a[i] > 0 {
        return i;
      }
    }
    return 0;
  }

  method ScanUp(a: array<int>, idx: nat) returns (best: int)
    requires idx <= a.Length
    ensures best == LowestFrom(a[..], idx)
  {
    var i := idx;
    while i < a.Length
      invariant idx <= i <= a.Length
      invariant LowestFrom(a[..], idx) == LowestFrom(a[..], i)
    {
      if a[i] > 0 {
        return i;
      }
      i := i + 1;
    }
    return a.Length - 1;
  }

  // ----- The book as a value -----

  datatype Book = Book(live: map<nat, Live>, bid: seq<int>, ask: seq<int>, bestBid: int, bestAsk: int)

  ghost predicate Shape(b: Book) {
    && |b.bid| == |b.ask| > 0
    && (forall k :: k in b.live ==> 0 <= b.live[k].index < |b.bid|)
    && -1 <= b.bestBid < |b.bid| && 0 <= b.bestAsk <= |b.ask|
  }

  ghost predicate BestOk(b: Book) {
    BestBid(b.bid, b.bestBid) && BestAsk(b.ask, b.bestAsk)
  }

  /** Totals and best prices agree with the live orders, none of which is negative. */
  ghost predicate Consistent(b: Book) {
    Shape(b) && NonNegative(b.live) && TotalsOk(b.live, b.bid, b.ask) && BestOk(b)
  }

  /** Effect of `insert` when the order map takes the id. */
  ghost function Entered(b: Book, id: nat, o: Live): Book
    requires Shape(b) && 0 <= o.index < |b.bid|
  {
    var live := b.live[id := o];
    if o.isBuy then b.(live := live, bid := Add(b.bid, o.index, o.quantity), bestBid := if o.index > b.bestBid then o.index else b.bestBid)
    else b.(live := live, ask := Add(b.ask, o.index, o.quantity), bestAsk := if o.index < b.bestAsk then o.index else b.bestAsk)
  }

  /** Effect of `updatePriceLevel`. */
  ghost function Changed(b: Book, isBuy: bool, i: nat, q: int): Book
    requires |b.bid| == |b.ask| && i < |b.bid|
  {
    if isBuy then var bid := Add(b.bid, i, q); b.(bid := bid, bestBid := NextBid(bid, b.bestBid, i))
    else var ask := Add(b.ask, i, q); b.(ask := ask, bestAsk := NextAsk(ask, b.bestAsk, i))
  }

  /** Effect of `update` on a live id. */
  ghost function Updated(b: Book, id: nat, q: int): Book
    requires Shape(b) && id in b.live
  {
    var o := b.live[id];
    Changed(b, o.isBuy, o.index, q - o.quantity).(live := b.live[id := o.(quantity := q)])
  }

  /** Effect of `cancel` on a live id. */
  ghost function Cancelled(b: Book, id: nat): Book
    requires Shape(b) && id in b.live
  {
    var o := b.live[id];
    Changed(b, o.isBuy, o.index, -o.quantity).(live := b.live - {id})
  }

  lemma LevelsNonNegative(m: map<nat, Live>, bid: seq<int>, ask: seq<int>)
    requires NonNegative(m) && TotalsOk(m, bid, ask)
    ensures AllNonNegative(bid) && AllNonNegative(ask)
  {
    forall i: nat | i < |bid| ensures bid[i] >= 0 { LevelPositive(m, true, i); }
    forall i: nat | i < |ask| ensures ask[i] >= 0 { LevelPositive(m, false, i); }
  }

  /** After `insert` the totals are right iff the id was new or its previous order was empty. */
  lemma InsertTotals(b: Book, id: nat, o: Live)
    requires Shape(b) && 0 <= o.index < |b.bid| && TotalsOk(b.live, b.bid, b.ask)
    ensures var b' := Entered(b, id, o);
      Shape(b') && (TotalsOk(b'.live, b'.bid, b'.ask) <==> id !in b.live || b.live[id].quantity == 0)
  {
    var b' := Entered(b, id, o);
    TotalsAfterInsert(b.live, b.bid, b.ask, id, o, b'.bid, b'.ask);
  }

  /** After `insert` into a consistent book the best prices are right iff the quantity is positive or the price improves nothing. */
  lemma InsertBest(b: Book, id: nat, o: Live)
    requires Consistent(b) && 0 <= o.index < |b.bid| && o.quantity >= 0
    ensures BestOk(Entered(b, id, o)) <==>
      || o.quantity > 0
      || (if o.isBuy then o.index <= b.bestBid || o.index == 0 else o.index >= b.bestAsk || o.index == |b.ask| - 1)
  {
    LevelsNonNegative(b.live, b.bid, b.ask);
    if o.isBuy {
      BidAfterInsert(b.bid, b.bestBid, o.index, o.quantity);
    } else {
      AskAfterInsert(b.ask, b.bestAsk, o.index, o.quantity);
    }
  }

  /** After `update` the totals are right. */
  lemma UpdateTotals(b: Book, id: nat, q: int)
    requires Shape(b) && id in b.live && TotalsOk(b.live, b.bid, b.ask)
    ensures Updated(b, id, q).live == b.live[id := b.live[id].(quantity := q)]
    ensures var b' := Updated(b, id, q); Shape(b') && TotalsOk(b'.live, b'.bid, b'.ask)
  {
    var b' := Updated(b, id, q);
    TotalsAfterUpdate(b.live, b.bid, b.ask, id, q, b'.bid, b'.ask);
  }

  /** After `update` of a consistent book the best prices are right iff no empty level beyond the best is revived. */
  lemma UpdateBest(b: Book, id: nat, q: nat)
    requires Consistent(b) && id in b.live
    ensures BestOk(Updated(b, id, q)) <==>
      var o := b.live[id];
      var level := if o.isBuy then b.bid[o.index] else b.ask[o.index];
      level > 0 || q == 0 || (if o.isBuy then o.index <= b.bestBid else o.index >= b.bestAsk)
  {
    var o, b' := b.live[id], Updated(b, id, q);
    UpdateTotals(b, id, q);
    LevelsNonNegative(b.live, b.bid, b.ask);
    LevelsNonNegative(b'.live, b'.bid, b'.ask);
    LevelPositive(b.live, o.isBuy, o.index);
    LevelPositive(b'.live, o.isBuy, o.index);
    LevelRemove(b.live, o.isBuy, o.index, id);
    NonNegativeRest(b.live, id);
    LevelPositive(b.live - {id}, o.isBuy, o.index);
    if o.isBuy {
      assert b'.bid[o.index] == b.bid[o.index] + (q - o.quantity);
      BidAfterChange(b.bid, b.bestBid, o.index, q - o.quantity);
    } else {
      assert b'.ask[o.index] == b.ask[o.index] + (q - o.quantity);
      AskAfterChange(b.ask, b.bestAsk, o.index, q - o.quantity);
    }
  }

  lemma NonNegativeRest(m: map<nat, Live>, id: nat)
    requires NonNegative(m)
    ensures NonNegative(m - {id})
  {
  }

  /** `cancel` keeps a consistent book consistent. */
  lemma CancelConsistent(b: Book, id: nat)
    requires Consistent(b) && id in b.live
    ensures Consistent(Cancelled(b, id))
  {
    var o, b' := b.live[id], Cancelled(b, id);
    TotalsAfterCancel(b.live, b.bid, b.ask, id, b'.bid, b'.ask);
    LevelsNonNegative(b.live, b.bid, b.ask);
    LevelsNonNegative(b'.live, b'.bid, b'.ask);
    if o.isBuy {
      assert b'.bid[o.index] == b.bid[o.index] - o.quantity;
      BidAfterChange(b.bid, b.bestBid, o.index, -o.quantity);
    } else {
      assert b'.ask[o.index] == b.ask[o.index] - o.quantity;
      AskAfterChange(b.ask, b.bestAsk, o.index, -o.quantity);
    }
  }

  /** Entering id 7 twice leaves its first quantity behind in level 0. */
  lemma ReusedIdBreaksTotals()
    ensures var b := Entered(EmptyBook(2), 7, Live(0, 5, true));
      Consistent(b) && var b' := Entered(b, 7, Live(1, 5, true)); !TotalsOk(b'.live, b'.bid, b'.ask)
  {
    var o := Live(0, 5, true);
    InsertTotals(EmptyBook(2), 7, o);
    InsertBest(EmptyBook(2), 7, o);
    InsertTotals(Entered(EmptyBook(2), 7, o), 7, Live(1, 5, true));
  }

  lemma EmptyConsistent(n: nat)
    requires n > 0
    ensures Consistent(EmptyBook(n))
  {
  }

  lemma FirstOrder(n: nat, id: nat, o: Live)
    requires 0 <= o.index < n && o.quantity > 0
    ensures Consistent(EmptyBook(n)) && Consistent(Entered(EmptyBook(n), id, o))
  {
    EmptyConsistent(n);
    InsertTotals(EmptyBook(n), id, o);
    InsertBest(EmptyBook(n), id, o);
  }

  /** An order that had its side to itself, reduced to nothing and raised again, is not seen by the best bid. */
  lemma RevivedOnly(b: Book, id: nat, q: nat)
    requires Consistent(b) && id in b.live && b.live[id].isBuy && b.live[id].index > 0 && q > 0
    requires b.bestBid == b.live[id].index && b.bid[b.bestBid] == b.live[id].quantity
    requires forall i: nat :: i < b.bestBid ==> b.bid[i] == 0
    ensures var b2 := Updated(b, id, 0);
      Consistent(b2) && id in b2.live && !BestOk(Updated(b2, id, q))
  {
    UpdateTotals(b, id, 0);
    UpdateBest(b, id, 0);
    UpdateBest(Updated(b, id, 0), id, q);
  }

  /** Such an order in a run from the empty book. */
  lemma RevivedLevelMissed()
    ensures
      var b1 := Entered(EmptyBook(3), 1, Live(2, 5, true));
      && Shape(b1) && 1 in b1.live && Consistent(b1)
      && var b2 := Updated(b1, 1, 0);
         Shape(b2) && 1 in b2.live && Consistent(b2) && !BestOk(Updated(b2, 1, 5))
  {
    FirstOrder(3, 1, Live(2, 5, true));
    RevivedOnly(Entered(EmptyBook(3), 1, Live(2, 5, true)), 1, 5);
  }

  ghost function EmptyBook(n: nat): Book {
    Book(map[], seq(n, _ => 0), seq(n, _ => 0), -1, n)
  }

  // ----- Runs -----

  datatype Command = InsertOrder(id: nat, order: Live) | UpdateOrder(id: nat, quantity: int) | CancelOrder(id: nat)

  /** An unknown id leaves the book as it is. */
  ghost function Apply(b: Book, c: Command): Book
    requires Shape(b) && (c.InsertOrder? ==> 0 <= c.order.index < |b.bid|)
  {
    match c
    case InsertOrder(id, o) => Entered(b, id, o)
    case UpdateOrder(id, q) => if id in b.live then Updated(b, id, q) else b
    case CancelOrder(id) => if id in b.live then Cancelled(b, id) else b
  }

  /** Fresh ids on insert, positive quantities on insert and update, prices within the book. */
  ghost predicate Disciplined(b: Book, c: Command) {
    match c
    case InsertOrder(id, o) => id !in b.live && o.quantity > 0 && 0 <= o.index < |b.bid|
    case UpdateOrder(id, q) => q > 0
    case CancelOrder(id) => true
  }

  ghost predicate AllPositive(m: map<nat, Live>) {
    forall k :: k in m ==> m[k].quantity > 0
  }

  lemma DisciplinedStep(b: Book, c: Command)
    requires Consistent(b) && AllPositive(b.live) && Disciplined(b, c)
    ensures Consistent(Apply(b, c)) && AllPositive(Apply(b, c).live) && |Apply(b, c).bid| == |b.bid|
  {
    match c
    case InsertOrder(id, o) =>
      InsertTotals(b, id, o);
      InsertBest(b, id, o);
    case UpdateOrder(id, q) =>
      if id in b.live {
        var o := b.live[id];
        UpdateTotals(b, id, q);
        UpdateBest(b, id, q);
        LevelPositive(b.live, o.isBuy, o.index);
        assert Share(o, o.isBuy, o.index) > 0;
      }
    case CancelOrder(id) =>
      if id in b.live { CancelConsistent(b, id); }
  }

  /** The three operations change the live orders as their callers ask. */
  lemma LiveAfter(b: Book, id: nat, o: Live, q: int)
    requires Shape(b) && 0 <= o.index < |b.bid|
    ensures Entered(b, id, o).live == b.live[id := o]
    ensures id in b.live ==> Updated(b, id, q).live == b.live[id := Live(b.live[id].index, q, b.live[id].isBuy)]
    ensures id in b.live ==> Cancelled(b, id).live == b.live - {id}
  {
  }

  /** The live order of an id after a run from the empty book: what its last insert and the updates since then made of it. */
  function OrderAfter(cs: seq<Command>, id: nat): Option<Live> {
    if cs == [] then None
    else
      var before, c := OrderAfter(cs[..|cs| - 1], id), cs[|cs| - 1];
      if c.id != id then before
      else
        match c
        case InsertOrder(_, o) => Some(o)
        case UpdateOrder(_, q) => if before.Some? then Some(Live(before.value.index, q, before.value.isBuy)) else None
        case CancelOrder(_) => None
  }

  ghost predicate DisciplinedRun(b: Book, cs: seq<Command>)
    requires Shape(b)
    decreases |cs|
  {
    cs == [] || (Disciplined(b, cs[0]) && Shape(Apply(b, cs[0])) && DisciplinedRun(Apply(b, cs[0]), cs[1..]))
  }

  ghost function Execute(b: Book, cs: seq<Command>): Book
    requires Shape(b) && DisciplinedRun(b, cs)
    decreases |cs|
  {
    if cs == [] then b else Execute(Apply(b, cs[0]), cs[1..])
  }

  lemma {:induction false} RunConsistent(b: Book, cs: seq<Command>)
    requires Consistent(b) && AllPositive(b.live) && DisciplinedRun(b, cs)
    ensures Consistent(Execute(b, cs)) && AllPositive(Execute(b, cs).live)
    decreases |cs|
  {
    if cs != [] {
      DisciplinedStep(b, cs[0]);
      RunConsistent(Apply(b, cs[0]), cs[1..]);
    }
  }

  lemma {:induction false} RunPrefix(b: Book, cs: seq<Command>, c: Command)
    requires Shape(b) && DisciplinedRun(b, cs + [c])
    ensures DisciplinedRun(b, cs) && Shape(Execute(b, cs)) && Disciplined(Execute(b, cs), c)
    ensures Execute(b, cs + [c]) == Apply(Execute(b, cs), c)
    decreases |cs|
  {
    var all := cs + [c];
    if cs == [] {
      assert all[1..] == [] && all[0] == c;
    } else {
      assert all[0] == cs[0] && all[1..] == cs[1..] + [c];
      RunPrefix(Apply(b, cs[0]), cs[1..], c);
    }
  }

  /** After every disciplined run the live orders are exactly those: each id with the side and price of its last insert and the quantity of its last insert or update. */
  lemma {:induction false} LiveOrders(n: nat, cs: seq<Command>, id: nat)
    requires n > 0 && DisciplinedRun(EmptyBook(n), cs)
    ensures
      var live := Execute(EmptyBook(n), cs).live;
      OrderAfter(cs, id) == if id in live then Some(live[id]) else None
    decreases |cs|
  {
    if cs != [] {
      var front, c := cs[..|cs| - 1], cs[|cs| - 1];
      assert cs == front + [c];
      RunPrefix(EmptyBook(n), front, c);
      LiveOrders(n, front, id);
    }
  }

  /**
   In every book reached from the empty one by a disciplined run, each level is
   the sum of the live quantities there, and a side with a live order has its
   best index at the extreme price of its live orders.
   */
  lemma ReachableBook(n: nat, cs: seq<Command>, k: nat)
    requires n > 0 && DisciplinedRun(EmptyBook(n), cs)
    ensures var b := Execute(EmptyBook(n), cs);
      && TotalsOk(b.live, b.bid, b.ask)
      && (k in b.live && b.live[k].isBuy ==>
            b.live[k].index <= b.bestBid && exists x :: x in b.live && b.live[x].isBuy && b.live[x].index == b.bestBid)
      && (k in b.live && !b.live[k].isBuy ==>
            b.bestAsk <= b.live[k].index && exists x :: x in b.live && !b.live[x].isBuy && b.live[x].index == b.bestAsk)
  {
    RunConsistent(EmptyBook(n), cs);
    var b := Execute(EmptyBook(n), cs);
    if k in b.live {
      if b.live[k].isBuy {
        BestBidIsMaximum(b.live, b.bid, b.ask, b.bestBid, k);
      } else {
        BestAskIsMinimum(b.live, b.bid, b.ask, b.bestAsk, k);
      }
    }
  }

  /** In every book so reached, listing from the best index equals listing from the end of the book. */
  lemma ReachableDepth(n: nat, cs: seq<Command>, count: nat)
    requires n > 0 && DisciplinedRun(EmptyBook(n), cs)
    ensures var b := Execute(EmptyBook(n), cs);
      && -1 <= b.bestBid < |b.bid| && 0 <= b.bestAsk <= |b.ask|
      && Take(Downwards(b.bid, b.bestBid + 1), count) == Take(Downwards(b.bid, |b.bid|), count)
      && Take(Upwards(b.ask, b.bestAsk), count) == Take(Upwards(b.ask, 0), count)
  {
    RunConsistent(EmptyBook(n), cs);
    var b := Execute(EmptyBook(n), cs);
    DownwardsFromBest(b.bid, b.bestBid, |b.bid|);
    UpwardsFromBest(b.ask, b.bestAsk, 0);
  }

  // ----- The book in place -----

  class Order {
    const id: nat
    const price: real
    const isBuy: bool
    var quantity: int

    constructor (id: nat, price: real, quantity: int, isBuy: bool)
      ensures this.id == id && this.price == price && this.quantity == quantity && this.isBuy == isBuy
    {
      this.id, this.price, this.quantity, this.isBuy := id, price, quantity, isBuy;
    }
  }

  class OrderBook {
    const priceToIndex: real -> int
    /** How many ids the order map can hold. */
    const capacity: nat
    const bidLevels: array<int>
    const askLevels: array<int>
    var orderMap: map<nat, Order>
    var bestBidIndex: int
    var bestAskIndex: int

    ghost function View(): map<nat, Live>
      reads this, orderMap.Values
    {
      map k | k in orderMap :: Live(priceToIndex(orderMap[k].price), orderMap[k].quantity, orderMap[k].isBuy)
    }

    ghost function Value(): Book
      reads this, orderMap.Values, bidLevels, askLevels
    {
      Book(View(), bidLevels[..], askLevels[..], bestBidIndex, bestAskIndex)
    }

    ghost predicate Valid()
      reads this, orderMap.Values, bidLevels, askLevels
    {
      && bidLevels != askLevels
      && Keyed()
      && Shape(Value())
    }

    constructor (priceToIndex: real -> int, capacity: nat, maxPriceLevels: nat)
      requires maxPriceLevels > 0
      ensures Valid() && fresh(bidLevels) && fresh(askLevels) && orderMap == map[]
      ensures this.priceToIndex == priceToIndex && this.capacity == capacity
      ensures Value() == EmptyBook(maxPriceLevels)
    {
      this.priceToIndex, this.capacity := priceToIndex, capacity;
      bidLevels := new int[maxPriceLevels](_ => 0);
      askLevels := new int[maxPriceLevels](_ => 0);
      orderMap, bestBidIndex, bestAskIndex := map[], -1, maxPriceLevels;
    }

    /** Adds to one level and lets the best index of that side follow an improvement. */
    method EnterLevel(isBuy: bool, idx: nat, q: int)
      requires bidLevels != askLevels && bidLevels.Length == askLevels.Length && idx < bidLevels.Length
      modifies this`bestBidIndex, this`bestAskIndex, bidLevels, askLevels
      ensures bidLevels[..] == if isBuy then Add(old(bidLevels[..]), idx, q) else old(bidLevels[..])
      ensures askLevels[..] == if isBuy then old(askLevels[..]) else Add(old(askLevels[..]), idx, q)
      ensures bestBidIndex == if isBuy && idx > old(bestBidIndex) then idx else old(bestBidIndex)
      ensures bestAskIndex == if !isBuy && idx < old(bestAskIndex) then idx else old(bestAskIndex)
    {
      if isBuy {
        bidLevels[idx] := bidLevels[idx] + q;
        if idx > bestBidIndex {
          bestBidIndex := idx;
        }
      } else {
        askLevels[idx] := askLevels[idx] + q;
        if idx < bestAskIndex {
          bestAskIndex := idx;
        }
      }
    }

    method UpdatePriceLevel(isBuy: bool, idx: nat, q: int)
      requires bidLevels != askLevels && bidLevels.Length == askLevels.Length && idx < bidLevels.Length
      modifies this`bestBidIndex, this`bestAskIndex, bidLevels, askLevels
      ensures bidLevels[..] == if isBuy then Add(old(bidLevels[..]), idx, q) else old(bidLevels[..])
      ensures askLevels[..] == if isBuy then old(askLevels[..]) else Add(old(askLevels[..]), idx, q)
      ensures bestBidIndex == if isBuy then NextBid(bidLevels[..], old(bestBidIndex), idx) else old(bestBidIndex)
      ensures bestAskIndex == if isBuy then old(bestAskIndex) else NextAsk(askLevels[..], old(bestAskIndex), idx)
    {
      if isBuy {
        bidLevels[idx] := bidLevels[idx] + q;
        if idx == bestBidIndex && bidLevels[idx] == 0 {
          bestBidIndex := ScanDown(bidLevels, idx);
        }
      } else {
        askLevels[idx] := askLevels[idx] + q;
        if idx == bestAskIndex && askLevels[idx] == 0 {
          bestAskIndex := ScanUp(askLevels, idx + 1);
        }
      }
    }

    /** `insert` of an order whose price lies within the book; it fails exactly when a new id finds the order map full. */
    method Insert(order: Order) returns (ok: bool)
      requires Valid() && 0 <= priceToIndex(order.price) < bidLevels.Length
      modifies this`orderMap, this`bestBidIndex, this`bestAskIndex, bidLevels, askLevels
      ensures Valid() && ok == (order.id in old(orderMap) || |old(orderMap)| < capacity)
      ensures orderMap == if ok then old(orderMap)[order.id := order] else old(orderMap)
      ensures var o := Live(priceToIndex(order.price), order.quantity, order.isBuy);
        Value() == if ok then Entered(old(Value()), order.id, o) else old(Value())
    {
      if order.id !in orderMap && |orderMap| >= capacity {
        return false;
      }
      ok := true;
      ghost var m := View();
      orderMap := orderMap[order.id := order];
      EnterLevel(order.isBuy, priceToIndex(order.price), order.quantity);
      assert View() == m[order.id := Live(priceToIndex(order.price), order.quantity, order.isBuy)];
    }

    /** No object is live under two ids. */
    ghost predicate Keyed()
      reads this, orderMap.Values
    {
      forall k :: k in orderMap ==> orderMap[k].id == k
    }

    method SetQuantity(id: nat, q: int)
      requires Keyed() && id in orderMap
      modifies orderMap[id]
      ensures orderMap[id].quantity == q
      ensures id in old(View()) && View() == old(View())[id := old(View())[id].(quantity := q)]
    {
      orderMap[id].quantity := q;
    }

    method Forget(id: nat)
      modifies this`orderMap
      ensures orderMap == old(orderMap) - {id} && View() == old(View()) - {id}
    {
      orderMap := orderMap - {id};
    }

    method ChangeBook(isBuy: bool, idx: nat, q: int)
      requires Valid() && idx < bidLevels.Length
      modifies this`bestBidIndex, this`bestAskIndex, bidLevels, askLevels
      ensures Value() == Changed(old(Value()), isBuy, idx, q) && Shape(Value())
    {
      ghost var m := View();
      UpdatePriceLevel(isBuy, idx, q);
      assert View() == m;
    }

    /** `update`; it fails exactly on an unknown id. */
    method Update(id: nat, q: int) returns (ok: bool)
      requires Valid()
      modifies this`bestBidIndex, this`bestAskIndex, bidLevels, askLevels, if id in orderMap then {orderMap[id]} else {}
      ensures Valid() && orderMap == old(orderMap) && ok == (id in orderMap)
      ensures ok ==> orderMap[id].quantity == q
      ensures Value() == if ok then Updated(old(Value()), id, q) else old(Value())
    {
      if id !in orderMap {
        return false;
      }
      ok := true;
      var ord := orderMap[id];
      assert View()[id] == Live(priceToIndex(ord.price), ord.quantity, ord.isBuy);
      ChangeBook(ord.isBuy, priceToIndex(ord.price), q - ord.quantity);
      SetQuantity(id, q);
    }

    /** `cancel`; it fails exactly on an unknown id. */
    method Cancel(id: nat) returns (ok: bool)
      requires Valid()
      modifies this`orderMap, this`bestBidIndex, this`bestAskIndex, bidLevels, askLevels
      ensures Valid() && ok == (id in old(orderMap)) && orderMap == old(orderMap) - {id}
      ensures Value() == if ok then Cancelled(old(Value()), id) else old(Value())
    {
      if id !in orderMap {
        assert orderMap - {id} == orderMap;
        return false;
      }
      ok := true;
      var ord := orderMap[id];
      assert View()[id] == Live(priceToIndex(ord.price), ord.quantity, ord.isBuy);
      ChangeBook(ord.isBuy, priceToIndex(ord.price), -ord.quantity);
      Forget(id);
    }

    /** The bids that `print` lists: with an exact best index, the first `count` positive levels of a full scan. */
    method BidDepth(count: nat) returns (bids: seq<Level>)
      requires Valid()
      ensures bids == Take(Downwards(bidLevels[..], bestBidIndex + 1), count)
      ensures BestBid(bidLevels[..], bestBidIndex) ==> bids == Take(Downwards(bidLevels[..], bidLevels.Length), count)
    {
      bids := CollectDown(bidLevels, bestBidIndex, count);
      if BestBid(bidLevels[..], bestBidIndex) {
        DownwardsFromBest(bidLevels[..], bestBidIndex, bidLevels.Length);
      }
    }

    /** The asks that `print` lists, highest first: with an exact best index, the reverse of the first `count` positive levels. */
    method AskDepth(count: nat) returns (asks: seq<Level>)
      requires Valid()
      ensures asks == Reverse(Take(Upwards(askLevels[..], bestAskIndex), count))
      ensures BestAsk(askLevels[..], bestAskIndex) ==> asks == Reverse(Take(Upwards(askLevels[..], 0), count))
    {
      asks := CollectUp(askLevels, bestAskIndex, count);
      if BestAsk(askLevels[..], bestAskIndex) {
        UpwardsFromBest(askLevels[..], bestAskIndex, 0);
      }
      asks := Reverse(asks);
    }
  }
}
