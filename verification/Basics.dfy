// Small shared vocabulary: optional values, counting over thread tables and
// the two facts about circular indices that the ring buffers rely on.
module Basics {

  datatype Option<+T> = None | Some(value: T)

  /** The messages that a sequence of dequeues delivered. */
  function Delivered<T>(polls: seq<Option<T>>): seq<T> {
    if polls == [] then []
    else
      var n := |polls| - 1;
      Delivered(polls[..n]) + if polls[n].Some? then [polls[n].value] else []
  }

  /** Sum of a weight over all entries of a table. */
  ghost function SumBy<T>(s: seq<T>, w: T -> nat): (r: nat)
  {
    if s == [] then 0 else w(s[0]) + SumBy(s[1..], w)
  }

  lemma {:induction false} SumByUpdate<T>(s: seq<T>, i: nat, x: T, w: T -> nat)
    requires i < |s|
    ensures SumBy(s[i := x], w) == SumBy(s, w) - w(s[i]) + w(x)
    ensures w(s[i]) <= SumBy(s, w)
  {
    if i == 0 {
      assert s[i := x][1..] == s[1..];
    } else {
      SumByUpdate(s[1..], i - 1, x, w);
      assert s[i := x][1..] == s[1..][i - 1 := x];
    }
  }

  lemma {:induction false} SumByAppend<T>(a: seq<T>, b: seq<T>, w: T -> nat)
    ensures SumBy(a + b, w) == SumBy(a, w) + SumBy(b, w)
  {
    if a == [] {
      assert a + b == b;
    } else {
      assert (a + b)[1..] == a[1..] + b;
      SumByAppend(a[1..], b, w);
    }
  }

  lemma {:induction false} SumByZero<T>(s: seq<T>, w: T -> nat)
    requires forall i :: 0 <= i < |s| ==> w(s[i]) == 0
    ensures SumBy(s, w) == 0
  {
    if s != [] {
      forall i | 0 <= i < |s| - 1 ensures w(s[1..][i]) == 0 { assert s[1..][i] == s[i + 1]; }
      SumByZero(s[1..], w);
    }
  }

  lemma SmallMultiple(k: int, n: nat)
    requires -(n as int) < k * n < n
    ensures k == 0
  {
    assert k >= 1 ==> k * n >= n;
    assert k <= -1 ==> k * n <= -(n as int);
  }

  lemma SmallRemainder(y: int, n: nat)
    requires 0 <= y < n
    ensures y % n == y
  {
    SmallMultiple(y / n, n);
  }

  /** Two positions of one ring cell that lie less than a lap apart are equal. */
  lemma SameCellSamePosition(a: int, b: int, n: nat)
    requires n > 0 && a % n == b % n && a <= b < a + n
    ensures a == b
  {
    assert b - a == (b / n - a / n) * n;
    SmallMultiple(b / n - a / n, n);
  }

  /** A full lap returns to the same cell. */
  lemma LapReturns(a: int, n: nat)
    requires n > 0
    ensures (a + n) % n == a % n
  {
    assert ((a + n) / n - (a / n + 1)) * n == a % n - (a + n) % n;
    SmallMultiple((a + n) / n - (a / n + 1), n);
  }
}
